/** Where the setup of a person is, from what the worker answers. */
module SetupStage {
  import opened Options

  /** `manages`: its role adds a site. */
  datatype Workspace = Workspace(id: string, manages: bool)

  datatype Answer<+T> = Ok(data: T) | Failed(status: nat)

  datatype Stage =
    | Email
    | Invited
    | Unchecked
    | Unnamed(problem: nat)
    | Unread(workspace: Workspace)
    | Install(workspace: Workspace, site: string)
    | SiteForm(workspace: Workspace)
    | Waiting(workspace: Workspace)

  datatype Made = Made(workspace: Workspace) | NotMade(problem: nat)

  /** What the worker answered, call by call; `None` for a call that was not made. */
  datatype Heard = Heard(
    me: Option<Answer<seq<Workspace>>>,
    invitations: Option<Answer<nat>>,
    again: Option<Answer<seq<Workspace>>>,
    created: Option<Answer<Workspace>>,
    sites: Option<Answer<seq<string>>>)

  const UNHEARD := Heard(None, None, None, None, None)

  /** The first workspace that an answer of `/console/me` shows. */
  function FirstOf(me: Answer<seq<Workspace>>): Option<Workspace> {
    if me.Ok? && me.data != [] then Some(me.data[0]) else None
  }

  predicate ClearOfInvitations(answer: Answer<nat>) {
    answer == Ok(0) || answer == Failed(404)
  }

  /** What is made under the lock; `None` while a call it needs is not answered. */
  function FirstWorkspace(heard: Heard): Option<Made> {
    if heard.again == None then None
    else
      match FirstOf(heard.again.value)
      case Some(found) => Some(Made(found))
      case None =>
        match heard.created
        case None => None
        case Some(Ok(created)) => Some(Made(created))
        case Some(Failed(status)) => Some(NotMade(status))
  }

  function SiteStage(workspace: Workspace, sites: Answer<seq<string>>): Stage {
    match sites
    case Failed(_) => Unread(workspace)
    case Ok(listed) =>
      if listed != [] then Install(workspace, listed[0])
      else if workspace.manages then SiteForm(workspace)
      else Waiting(workspace)
  }

  function SitesRead(workspace: Workspace, heard: Heard): Option<Stage> {
    if heard.sites == None then None else Some(SiteStage(workspace, heard.sites.value))
  }

  /** The stage of one resolution, from the answers of its calls. */
  function ResolveStage(heard: Heard): Option<Stage> {
    match heard.me
    case None => None
    case Some(Failed(_)) => Some(Email)
    case Some(Ok(workspaces)) =>
      if workspaces != [] then SitesRead(workspaces[0], heard)
      else
        match heard.invitations
        case None => None
        case Some(invitations) =>
          if invitations.Failed? && invitations.status != 404 then Some(Unchecked)
          else if invitations.Ok? && invitations.data > 0 then Some(Invited)
          else
            match FirstWorkspace(heard)
            case None => None
            case Some(NotMade(problem)) => Some(Unnamed(problem))
            case Some(Made(workspace)) => SitesRead(workspace, heard)
  }
}
