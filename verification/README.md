# Verification of Fruitback's scheduler, console protocols and mutation tooling

A model, in Dafny, of the parts of the Fruitback repository whose correctness rests on an argument that no single
function shows: the scheduler that cuts the end-to-end suite into parts, the protocols that keep the tabs of the
console right whatever arrives late or out of order, the ordered lists and documents that are written and read back,
and the arithmetic of the mutation tooling.

`dafny verify dfyconfig.toml` checks the whole project.

## What is modelled

**The suite scheduler** (`Ordering`, `ListScheduling`, `Shards`, `ShardRules`, `ShardProperties`, `LongestFirstBound`,
`TestParts`, `ShardCertificate`). `PartSeconds` and `PartsOf` are the loops of `e2e/shards.ts` over an array of busy
workers and a list of parts, and `VerdictOf` is the verdict of `tools/ci/test-parts.ts` on what each part ran. Each is
proved equal to a specification; `ShardRules` says what that is without its definitions: for whatever order, choice
among equals and bookkeeping keep the rules of the source. The theorems are about that specification: Graham's bound
for a part and for the whole suite, his sharper bound for the longest file first when a part has one worker, parts
that end within one longest file of each other, monotonicity of list scheduling by domination of load vectors,
conservation of the files, independence of the order of the folder, and the exact condition under which no part is
empty. CI judges the parts of the worker's tests by that verdict; the cut of the end-to-end suite is proved to meet
the same rule exactly then.

**The protocols of the console.** The code that runs with no wait is a function on the variables it reads and writes;
where the source changes those variables in place, a class does so too and is proved equal to the functions. Over them
stands a transition system whose runs are arbitrary sequences of events: any interleaving, any delay, any loss.

- `TabAccount`, `TabProtocol`, `TabHistory`: the tab that stops when the browser changes account, and what it knows, told
  from the events of its run alone.
- `SetupStage`, `SetupProtocol`, `SetupOutcome`: the first workspace, made under a lock that the tabs of a browser share,
  and where each tab ends.
- `TeamList`, `TeamProtocol`: the paged and searched list of teams.
- `LocaleLoader`: the language of the screens, where the last choice wins.
- `ConnectWatch`: the page that reads until a browser connects.
- `TabSignal`: the sign-in handshake between tabs, over messages in flight and timers.

**Lists, keys and documents.** `SiteStatuses` (the merge of rows with defaults), `StatusStore` (what the screen of the
statuses writes, and what its list shows then), `FreshKey` (the key of a status the team adds), `BoardColumns` (the
columns of the board), `PageWindow` (the pages of a list) and `GuideBlock` (the block that is replaced in a document).

**The mutation tooling.** `MutationCost` (what a run costs when its test files are pruned) and `Ratchet` (scores in
hundredths of a percent, the lines they may not go under, and what fails in a run).

`Options`, `Ordering` and `Decimals` hold what several modules share: an optional value, a stable sort with the order
it needs, and decimal text.

## What the proofs found

- `e2e/shards.ts:14` says that a file goes to the part where the time of the busiest worker *grows* least. The code
  picks the part whose time is then *least* (line 65). Over every suite, the two agree exactly with one worker or one
  part (`ShardProperties.LeastGrowthExactly`); with more of both, a suite of two files already goes where the time
  grows by 1 s and not by 0 (`PutWhereItGrowsMore`). The model follows the code.
- With durations of zero, as many files as parts is not enough for every part to hold one: at most one part can be
  left to files of no time (`ShardProperties.NoPartEmpty` is the exact condition).
- `apps/console/app/api.ts:331` says that the last `/console/me` is never an answer about somebody else. `redeemLink`
  sets the account of the tab and leaves the last answer as it is (lines 516-520): `TabProtocol.SignInOverKnown` is a
  run where the tab draws another account. Starting the sign-in with nothing known is not enough either, when an
  answer is on its way (`TabProtocol.SignInWithReadOnItsWay`). `TabProtocol.OwnMeExactly` says exactly which runs are
  safe, `TabProtocol.SafeToSignIn` what to look at before an answer is taken, and `TabProtocol.CarefulSignIns` a
  condition that callers can keep over a whole run: a sign-in begins with nobody known and no `/console/me` on its way,
  and none is asked for until it is answered.
- The same comment says that the last `/console/me` is forgotten at a sign-out. A read that was on its way brings the
  account back (`TabProtocol.SignOutWithReadOnItsWay`): the tab stays of nobody exactly when no answer that can name an
  account was on its way (`TabProtocol.SignedOutExactly`).
- At most one first workspace is made when every reading under the lock is answered and no request is given up before
  the worker handled it. The bound of `SetupProtocol.WorkspacesMade` counts one more for each exception, and
  `BoundReached` reaches it for every number of either, so that one at most is guaranteed exactly when there is none
  (`OneAtMostExactly`). A browser with no lock makes as many as it has tabs (`NoLockMakesMany`), where
  `apps/console/app/routes/setup.tsx:51-52` speaks of two.
- A killed mutant that names no killer, in a report where a test has the empty name, can run more tests once the test
  set is pruned to the killers (`MutationCost.UnnamedKillerIsDearer`). `KillersNeverDearerExactly` says which mutants
  never run more, whatever the other mutants of the report are.
- `apps/console/app/connect-watch.ts:50` says that a read that fails changes nothing. That is so exactly of a read
  that is not the first (`ConnectWatch.FailedReadExactly`). A *first* read that fails leaves the page with no list to
  compare with for good (lines 77-82): from then on a browser counts by its date, and one that connected up to two
  minutes before the page opened counts as new (`FailedFirstReadTells`, `ConnectsExactly`).
- Every file of a package can hold its line while the package falls under its own, when a weak file gains mutants
  (`Ratchet.FilesAreNotEnough`); with as many valid mutants in each file, and no more than ten thousand, the lines of
  the files imply the line of the package (`Ratchet.FilesAreEnough`). From the lines and the sizes of the files alone,
  `Ratchet.FilesAreEnoughExactly` says when they do.
- A status the team added is saved at the end of the rows (`apps/console/app/parts/status-list.tsx:113`), so its rank
  changes: an edit keeps the order of the list exactly when none stands at the same position after it
  (`StatusStore.SaveReadsBackExactly`). A new one takes the count of the list as its position (line 328), and comes last
  exactly when no other has a higher one (`StatusStore.NewComesLastExactly`), as one can after a deletion.
- A block of the guide whose steps hold the end mark cannot be replaced again: its last part stays in the document
  (`GuideBlock.EndInside`). In any document with a block, the guide is written over as if it had not been there exactly
  when no step, and not the captures, holds that mark (`GuideBlock.GuideIsReplacedExactly`).

## Model

| member | source | states |
|---|---|---|
| ListScheduling.MakespanMean | e2e/shards.ts:35-43 | the time of a part is at least the total of its files over its workers |
| ListScheduling.MakespanHolds | e2e/shards.ts:35-43 | the time of a part is at least that of each of its files |
| ListScheduling.LoadsSpread | e2e/shards.ts:35-43 | after every file, the busiest worker is ahead of each other by one longest file at most |
| ListScheduling.MakespanAtMost | e2e/shards.ts:35-43 | workers times the time is at most the total and (workers - 1) longest files |
| ListScheduling.RunDominated | e2e/shards.ts:35-43 | a run from loads that are dominated, with files that are no longer, stays dominated through every step of the loop |
| ListScheduling.OneMoreJob | e2e/shards.ts:35-43 | a job put anywhere in the order never makes the run end earlier, nor later by more than itself |
| ListScheduling.AnyLeastBusy | e2e/shards.ts:38-39 | whichever of the least busy workers gets each file, the last worker ends at the same time |
| ListScheduling.AssignedLoad | e2e/shards.ts:35-43 | the load of a worker is the sum of the files it was given |
| Ordering.TextLeMeans | e2e/shards.ts:37 | a path is before those it begins, and else by the first character that differs |
| Shards.AddToFree | e2e/shards.ts:38-39 | one turn of the loop: the array of busy workers is the old one with the file on the first least busy worker |
| Shards.PartSeconds | e2e/shards.ts:35-43 | the loop over the sorted files computes the time of the specification of list scheduling |
| ShardRules.PartTimeIsHandedOut | e2e/shards.ts:35-43 | the time of a part is that of its files handed out by their paths, the first path first, each to any worker that is least busy then |
| ShardRules.PartHandOut | e2e/shards.ts:35-43 | every part can be handed out that way |
| ShardProperties.PartTimeBounds | e2e/shards.ts:35-43 | the time of a part lies between its mean load and that mean plus less than one longest file |
| ShardProperties.AddingNeverLowers | e2e/shards.ts:35-43 | wherever it falls in the order of the paths, one more file never lowers the time of a part, and raises it by its own time at most |
| ShardProperties.LongerNeverLowers | e2e/shards.ts:35-43 | longer files never make a part end earlier |
| ShardProperties.PartApproximation | e2e/shards.ts:35-43 | the time of a part is at most (2 - 1/workers) times the time of any assignment of its files to the workers |
| Shards.MeasureKey | e2e/shards.ts:55-64 | the key of a part for a file: its time with the file, then the total it holds without it |
| Shards.Choose | e2e/shards.ts:61-69 | the loop over the parts finds the first part whose key is least |
| Shards.PartsOf | e2e/shards.ts:46-74 | the greedy loop over the files, longest first, computes the parts of the specification |
| ShardRules.SecondsMean | e2e/shards.ts:52-54 | a measured file counts for its duration; so many times what any other counts for is the sum of the listed durations, and it is a second when there is none |
| ShardRules.PartsFollowTheRule | e2e/shards.ts:57-73 | walked the longest first, each file put in the first part that ends first with it and, of those, holds the least without it: the parts so filled, sorted, are the cut |
| Shards.BestIsFirstLeast | e2e/shards.ts:65-68 | the best part is the one whose key is least, and the first of those |
| ShardProperties.BestTime | e2e/shards.ts:63-69 | the part a file goes to ends no later with it than any other part would |
| ShardProperties.LeastGrowthExactly | e2e/shards.ts:12-14 | over every suite, each file goes to the part whose time grows least if and only if there is one worker or one part |
| ShardProperties.PutWhereItGrowsMore | e2e/shards.ts:61-69 | two files, with two workers and two parts or more: the second goes where the time grows by 1 s, not to the part where it grows by none |
| ShardProperties.PartsEndTogether | e2e/shards.ts:9-10 | each part of the cut ends within one longest file of every other |
| ShardProperties.ContentsPut | e2e/shards.ts:60-71 | the parts gain exactly the files that are put, one after another |
| ShardProperties.FilesConserved | e2e/shards.ts:46-74 | the parts together hold the files, each as often as the folder does, unless there is no part to hold them; each part is sorted |
| ShardProperties.PartsOrderFree | e2e/shards.ts:52-73 | two listings of the same files, in any order, are cut in the same parts, so every job of the matrix computes the same ones |
| ShardProperties.BestIsFirstIdle | e2e/shards.ts:61-69 | while parts hold no time, a file goes to the first of them, after the loaded ones |
| ShardProperties.NoPartEmpty | e2e/shards.ts:57-73 | no part is empty if and only if there are as many files as parts, and a file of some time for every part but one |
| ShardProperties.NoPartEmptyWhenPositive | e2e/shards.ts:57-73 | with known durations above zero, no part is empty if and only if there are as many files as parts |
| ShardProperties.PutTime | e2e/shards.ts:61-69 | the part a file goes to ends within one longest file of the mean of all the workers of all the parts |
| ShardProperties.SuiteApproximation | e2e/shards.ts:46-74 | every part of the cut ends within (2 - 1/(parts * workers)) times any schedule of the whole suite on all the workers |
| LongestFirstBound.LongJobEnds | e2e/shards.ts:46-74 | of jobs that fall in length, one of more than a third of the time of any other schedule ends within that time |
| LongestFirstBound.LongestFirstRatio | e2e/shards.ts:46-74 | jobs given to the least busy worker, the longest first, end within 4/3 - 1/(3 * workers) times any assignment of the same jobs |
| LongestFirstBound.LongestFirstApproximation | e2e/shards.ts:46-74 | with one worker for each part, every part of the cut ends within 4/3 - 1/(3 * parts) times the longest part of any other cut |
| TestParts.CountRuns | tools/ci/test-parts.ts:45-46 | the nested loops count, for each file, the parts that hold it, and list each file that ran once |
| TestParts.RunsExactly | tools/ci/test-parts.ts:45-46 | the runs of a file are the places of the parts that hold it, counted |
| TestParts.VerdictOf | tools/ci/test-parts.ts:44-55 | the four lists hold exactly the files no part ran, those run twice with their count, those not listed, and the parts that are empty, in order |
| TestParts.PassesExactly | tools/ci/test-parts.ts:58-60 | a verdict passes if and only if each listed file is in exactly one part, no part holds another file, and none is empty |
| ShardCertificate.GreedyPasses | e2e/shards.ts:46-74 | any verdict on the parts of the greedy passes if and only if the files and the files of some time are enough |
| ShardCertificate.GreedyPassesWhenPositive | e2e/shards.ts:46-74 | with known durations above zero, the verdict passes if and only if there are as many files as parts |
| ShardCertificate.ShardReadsBack | e2e/shards.ts:77-86 | the text of a part and its count reads back as those numbers exactly when the part is within the count |
| ShardCertificate.PartIsRead | e2e/shards.ts:77-86 | digits, a slash and digits within bounds are read as their numbers, leading zeros included |
| ShardCertificate.OthersRefused | e2e/shards.ts:77-86 | every other text is refused, and only those |
| ShardCertificate.EveryFileInOneJob | e2e/shards.ts:89-95 | of the jobs 1 to n, each file of the folder is run by exactly one |
| ShardCertificate.JobRunsItsPart | e2e/shards.ts:89-95 | the job i/n runs the part i of the cut in n, and a job of any other name runs nothing |
| TabAccount.Tab.Stop | apps/console/app/api.ts:354-359 | a tab stops once, forgets who it knew, and tells why |
| TabAccount.Tab.Check | apps/console/app/api.ts:369-381 | a check asks only for a tab of somebody that goes on and has no check pending |
| TabAccount.Tab.HearStatus | apps/console/app/api.ts:436-440 | a refusal of the session forgets the last answer, and is seen unless the call is quiet |
| TabAccount.Tab.ReadBody | apps/console/app/api.ts:441-457 | an answer that names an account sets the tab or, when it names another one, stops it and is not read |
| TabAccount.Read | apps/console/app/api.ts:442-457 | data that names an account is always of the account of the tab, and an answer of another account is never data |
| TabAccount.Tab.JudgeCheck | apps/console/app/api.ts:372-375 | a check refused by the session stops the tab unless the end was seen |
| TabAccount.Tab.Redeemed | apps/console/app/api.ts:516-520 | a sign-in sets the account of the tab and leaves the last answer |
| TabAccount.Tab.SignOutAnswered | apps/console/app/api.ts:534-541 | a sign-out that the worker confirmed leaves the tab of nobody |
| TabHistory.KnownMeExactly | apps/console/app/api.ts:327-338 | in every run, what a tab draws at once is an account if and only if the tab never stopped, and no 401, no sign-out and no other answer about its account came after the good answer that named it |
| TabHistory.StoppedExactly | apps/console/app/api.ts:354-381 | a tab is stopped for a reason if and only if the first event of its run that stops a tab is of that reason: another account named, or a check refused with no end seen |
| TabHistory.EndSeenExactly | apps/console/app/api.ts:436-452 | the end of the session was seen if and only if a call that is not quiet was refused, with no sign-in and no answer about the account since |
| TabHistory.AccountExactly | apps/console/app/api.ts:441-454 | a tab is of the account that the last sign-in, sign-out or answer about it left it with |
| TabHistory.RefusedForgets | apps/console/app/api.ts:436-440 | after a 401 to any call or check, nobody is known until a good answer names the account; the end is seen exactly when the call is not quiet |
| TabHistory.SeenEndStopsNothing | apps/console/app/api.ts:369-381 | once a call saw the end of the session, no check stops the tab for it before a sign-in or an answer about the account |
| TabHistory.CallGoesThrough | apps/console/app/api.ts:413-458 | whatever happens in between, a call of a tab that goes on with no check pending is sent, and answers what came back, or that the tab was left when it names another account |
| TabHistory.HeldGoes | apps/console/app/api.ts:419-434 | a held call is sent once its check is over, and answers that the tab was left when it stopped |
| TabHistory.RequestAnswered | apps/console/app/api.ts:500-542 | a link, a sign-in and a sign-out answer what came back for them, whoever the tab is of |
| TabProtocol.RunSound | apps/console/app/api.ts:325-458 | what every interleaving keeps: a pending check has one question that is not over, and a tab is told once why it stopped |
| TabProtocol.StoppedForGood | apps/console/app/api.ts:433-434 | once a tab stopped, no later event makes it send, know somebody, or stop again |
| TabProtocol.HeldCallWaits | apps/console/app/api.ts:419-423 | a call begun while a check was pending is sent only after that check was over, of a tab that still went on |
| TabProtocol.HeldWhilePending | apps/console/app/api.ts:419-423 | while its check is pending, a held call does not move |
| TabProtocol.SettledForGood | apps/console/app/api.ts:371-378 | a check that ended is never pending again |
| TabProtocol.HeldCallsDie | apps/console/app/api.ts:365-381 | when a check finds another account, or that the session ended, no call it held is ever sent |
| TabProtocol.OneAccount | apps/console/app/api.ts:441-457 | between its own sign-ins and sign-outs, every answer a tab gives to a screen names one account, whoever the browser is |
| TabProtocol.OwnMeExactly | apps/console/app/api.ts:327-338 | at every moment of a run the tab draws its own account if and only if no sign-in of the run is answered over somebody else |
| TabProtocol.CarefulSignIns | apps/console/app/api.ts:511-523 | over a whole run: when each sign-in begins with nobody known and nobody asked for, and nobody is asked for until it is answered, the tab draws its own account at every moment, before, between and after them |
| TabProtocol.SafeToSignIn | apps/console/app/api.ts:516-520 | whatever a sign-in answers, the tab draws its own account after it if and only if it knows nobody by then |
| TabProtocol.SignInOverKnown | apps/console/app/api.ts:511-523 | a run where a sign-in leaves the tab drawing another account |
| TabProtocol.SignInWithReadOnItsWay | apps/console/app/api.ts:511-523 | the same with nothing known when the sign-in begins |
| TabProtocol.SignedOutExactly | apps/console/app/api.ts:531-542 | after a confirmed sign-out, over every run in which nobody asks who is there, the tab stays of nobody if and only if no answer that can name an account was on its way |
| TabProtocol.SignOutWithReadOnItsWay | apps/console/app/api.ts:531-542 | a run where a read that came before the sign-out brings the account back after it |
| SetupProtocol.StagesFollowAnswers | apps/console/app/setup-stage.ts:112-141 | at every moment of every run, a tab that finished shows the stage that its own answers say |
| SetupOutcome.FinishedExactly | apps/console/app/setup-stage.ts:112-141 | in every run, a tab that is done shows a stage if and only if its answers call for it: which refusal, which workspace, its first site, or its role when it has none |
| SetupOutcome.MeAnswered | apps/console/app/setup-stage.ts:112-118 | the first answer ends at the email, goes on with the first workspace shown, or asks for the invitations |
| SetupOutcome.InvitationsAnswered | apps/console/app/setup-stage.ts:118-124 | invitations that wait and a refusal other than 404 end the resolution, and all else goes for the lock |
| SetupOutcome.AgainAnswered | apps/console/app/setup-stage.ts:97-100 | under the lock, a workspace that is shown is taken and frees it, and else one is asked for |
| SetupOutcome.CreateAnswered | apps/console/app/setup-stage.ts:100-104 | a request makes one workspace once, and its answer, good or not, frees the lock |
| SetupOutcome.SitesAnswered | apps/console/app/setup-stage.ts:132-141 | every answer about the sites ends at the stage for it, by the role when there is no site |
| SetupProtocol.CreatesOnlyWhenClear | apps/console/app/setup-stage.ts:118-125 | a workspace is asked for only after the worker showed none and the invitations were none, or not served |
| SetupProtocol.WorkspacesMade | apps/console/app/setup-stage.ts:95-106 | over every run of any number of tabs, one workspace at most is made for somebody with none, plus one for each refused reading under the lock and each request given up too early; none for somebody with one |
| SetupProtocol.OneWorkspaceForAllTabs | apps/console/app/setup-stage.ts:87-106 | with every reading answered and no request given up, every tab that has a workspace has the same one |
| SetupProtocol.NoneForOwners | apps/console/app/setup-stage.ts:116-118 | nothing is ever made for somebody who has a workspace, whatever fails, with the lock or without |
| SetupProtocol.BoundReached | apps/console/app/setup-stage.ts:97-104 | for every number of refused readings and of requests given up, a run that makes one workspace more than both together |
| SetupProtocol.OneAtMostExactly | apps/console/app/setup-stage.ts:87-104 | with so many of each, one workspace at most is made over all runs if and only if there is none of either |
| SetupProtocol.NoLockMakesMany | apps/console/app/routes/setup.tsx:51-56 | in a browser with no lock, any number of tabs make one workspace each, with every reading answered |
| TeamList.AddTeams | apps/console/app/team-list.ts:88-98 | the loop over a growing set of ids keeps the first team of each id that is not in the list |
| TeamList.WithTeamsKeeps | apps/console/app/team-list.ts:87-98 | the list keeps what it held in front, holds each id once, and every id of the answer |
| TeamList.OneMoreTeam | apps/console/app/team-list.ts:88-98 | one more team of an answer comes last, unless its id came before |
| TeamList.TrimMeans | apps/console/app/team-list.ts:57-60 | the words of a search are those between two runs of blanks |
| TeamList.SearchToAskExactly | apps/console/app/team-list.ts:77-80 | words are asked if and only if they search, more is to be read, and they were not the last asked |
| TeamProtocol.FirstPageSound | apps/console/app/team-list.ts:36-49 | the list of a first page is as every run keeps it |
| TeamProtocol.RunSound | apps/console/app/team-list.ts:51-75 | over answers late, lost or out of order: ids stay distinct, every team of the pages before the cursor is there, and a page is on its way only to a next page |
| TeamProtocol.OnlyAppends | apps/console/app/team-list.ts:62-71 | until the list is replaced, it only grows at its end, and a complete list stays complete |
| TeamProtocol.CompleteList | apps/console/app/team-list.ts:17-18 | with no next page, the list holds exactly the teams of the worker for good |
| TeamProtocol.LateAnswersDropped | apps/console/app/team-list.ts:62-65 | an answer to a request the list does not wait for changes nothing, at any later moment |
| TeamProtocol.AskedOnce | apps/console/app/team-list.ts:77-80 | words that were asked are not asked again while no other words are typed |
| TeamProtocol.AnswerTaken | apps/console/app/team-list.ts:62-71 | an answer that is waited for puts all its teams in the list; a page moves the cursor on, and a search leaves it |
| TeamProtocol.FailureShows | apps/console/app/team-list.ts:57-74 | a failure of the request shows, and words typed take it back |
| TeamProtocol.CanComplete | apps/console/app/team-list.ts:8-12 | from any moment of any run, a page can complete the list: all the teams of the worker are then there |
| LocaleLoader.Screens.ShowLanguage | apps/console/app/i18n.ts:75-79 | the loop calls each listener once, and only when the language changes |
| LocaleLoader.Screens.Choose | apps/console/app/i18n.ts:87-116 | a choice is wanted at once, shown at once when its map is there, and loaded otherwise |
| LocaleLoader.Screens.MapCame | apps/console/app/i18n.ts:122-126 | the map of a load that succeeds is there from then on |
| LocaleLoader.Screens.AfterLoad | apps/console/app/i18n.ts:103-113 | after its load, a language is shown only when it is still the one wanted |
| LocaleLoader.ShownIsLoaded | apps/console/app/i18n.ts:60-61 | in every run, the language of the screens has its map |
| LocaleLoader.ReadyShowsChoice | apps/console/app/i18n.ts:128-131 | when the promise of readiness is done, the last choice is shown or its load failed |
| LocaleLoader.QuietShowsChoice | apps/console/app/i18n.ts:87-116 | with no load of the wanted language pending or failed, it is the one shown |
| LocaleLoader.LastChoiceWins | apps/console/app/i18n.ts:62-63 | after the last choice, the screens change at most once, to that choice, whatever map arrives |
| LocaleLoader.HeardIsChanges | apps/console/app/i18n.ts:75-79 | a listener hears exactly the changes of the language while it listens |
| LocaleLoader.ChangesAlternate | apps/console/app/i18n.ts:75-79 | no two changes in a row are to the same language, and the last is the one shown |
| LocaleLoader.AsksExactly | apps/console/app/i18n.ts:96-105 | a map is loaded if and only if it is needed and not there; a choice that needs none is shown at once |
| LocaleLoader.SettlesExactly | apps/console/app/i18n.ts:103-113 | a load that ends shows its language if and only if it came well and is still wanted |
| LocaleLoader.CatalogsExactly | apps/console/app/i18n.ts:122-126 | in every run, a map is there if and only if a load of its language came well |
| ConnectWatch.FirstIsFound | apps/console/app/connect-watch.ts:22-30 | the browser found is the first of the list that is new, and none is found only when none is |
| ConnectWatch.Watch.StartRead | apps/console/app/connect-watch.ts:69-72 | a read starts only for a shown tab that goes on with none on its way |
| ConnectWatch.Watch.EndRead | apps/console/app/connect-watch.ts:75-89 | an answer is the first list, tells of a new browser and stops, or plans the next read |
| ConnectWatch.Watch.VisibilityChange | apps/console/app/connect-watch.ts:91-95 | a hidden tab drops its timer, a shown one asks at once |
| ConnectWatch.RunGood | apps/console/app/connect-watch.ts:53-105 | in every run: stopped, hidden, asking or with a timer; one read on its way at most; no timer beside a read; told once at most |
| ConnectWatch.StoppedForGood | apps/console/app/connect-watch.ts:100-104 | once stopped, nothing is read and nobody is told |
| ConnectWatch.ConnectsOutcome | apps/console/app/connect-watch.ts:74-88 | the browser told is exactly the first new one of the answers after the first |
| ConnectWatch.ConnectsExactly | apps/console/app/connect-watch.ts:77-88 | somebody is told if and only if an answer after the first holds a browser the first list does not, or one within the margin when the first read failed |
| ConnectWatch.TellsTheFirst | apps/console/app/connect-watch.ts:22-30 | in every run, the page is told of the first browser, of the answers after the first, that the first list does not hold, or that connected at most two minutes before the page opened when there is none |
| ConnectWatch.TellsNobody | apps/console/app/connect-watch.ts:22-30 | and of nobody when no browser did |
| ConnectWatch.FailedReadExactly | apps/console/app/connect-watch.ts:50 | a failed read changes nothing of what is told, whatever is read after it, if and only if another answer came before it |
| ConnectWatch.FailedReadTellsAlike | apps/console/app/connect-watch.ts:50 | two runs whose answers differ by a failed read that is not the first tell of the same browser |
| ConnectWatch.FailedFirstReadTells | apps/console/app/connect-watch.ts:77-82 | a run whose first read fails tells of a browser that was there, and the run without that read tells of none |
| ConnectWatch.ReadsBounded | apps/console/app/connect-watch.ts:65-95 | reads are no more than the timers that fired and the times the tab was shown |
| ConnectWatch.ReadsExactly | apps/console/app/connect-watch.ts:65-98 | in every run, a read is made, once, when the timer fires or the tab is shown with none on its way, and at the start of a tab that is shown |
| ConnectWatch.HiddenReadsNothing | apps/console/app/connect-watch.ts:48-50 | a tab that is hidden, from the start or from any moment, asks nothing until it is shown |
| TabSignal.LinkTab.Message | apps/console/app/tab-signal.ts:66-73 | a link that hears « carried-on » is resolved, one that hears « heard » waits longer |
| TabSignal.WaitingTab.Message | apps/console/app/tab-signal.ts:91-94 | a waiting tab told of a sign-in says « heard » and asks the worker |
| TabSignal.WaitingTab.Told | apps/console/app/tab-signal.ts:94-98 | it carries on, and says so, only when the worker said yes and it was not stopped |
| TabSignal.RunGood | apps/console/app/tab-signal.ts:53-106 | over every timing: a link is resolved at most once and has a timer until then; a tab carries on no more often than the worker said yes |
| TabSignal.Opens | apps/console/app/tab-signal.ts:53-75 | a link with a channel tells every tab and waits 400 ms, and one with none has its answer |
| TabSignal.WaiterHearsOf | apps/console/app/tab-signal.ts:91-94 | a waiting tab that hears of a sign-in says « heard » to every tab, and asks the worker once more |
| TabSignal.WaiterIgnores | apps/console/app/tab-signal.ts:91-105 | a waiting tab hears no other word, and nothing once it stopped |
| TabSignal.CarriesOnExactly | apps/console/app/tab-signal.ts:94-98 | on an answer of the worker, a tab carries on, and says so to every tab, if and only if the answer is yes and it was not stopped |
| TabSignal.LinkIsTold | apps/console/app/tab-signal.ts:66-73 | « carried-on » is the answer of a link that waits, and « heard » gives it five seconds from then |
| TabSignal.HandshakeWorks | apps/console/app/tab-signal.ts:42-106 | at any moment, with a tab that waits and a yes of the worker, a link that is opened is answered by that tab, which carries on |
| TabSignal.TrueMeansCarriedOn | apps/console/app/tab-signal.ts:49-51 | a link that answers true was told so by a waiting tab that carried on after that link announced, and before its answer |
| TabSignal.SomebodyGoesOn | apps/console/app/tab-signal.ts:49-51 | for each link that is resolved, a waiting tab carried on while it waited, or its own tab goes on |
| TabSignal.StoppedNeverCarriesOn | apps/console/app/tab-signal.ts:95-104 | a tab that stopped waiting never carries on |
| TabSignal.GivesUpLate | apps/console/app/tab-signal.ts:65-72 | a link with a channel gives up no earlier than 400 ms after its start with nobody there, or 5 s after the last « heard »; one with no channel answers at its start |
| TabSignal.TimeResolves | apps/console/app/tab-signal.ts:65-72 | whatever happened before, time alone resolves a link that is not |
| SiteStatuses.Move | apps/console/app/site-statuses.ts:191-198 | the swap in a copy, numbered again, is the move of the specification, and nothing past an end |
| SiteStatuses.MoveKeeps | apps/console/app/site-statuses.ts:191-198 | a move is a permutation that swaps two places and numbers the list from 0 |
| SiteStatuses.MoveThenBack | apps/console/app/site-statuses.ts:191-198 | a move and its inverse give the order back |
| SiteStatuses.WriteThenRead | apps/console/app/site-statuses.ts:110-142 | a list in the order of growing positions, whatever was changed in it, reads back as the same rows in the same order once its rows are written, in any order and beside any rows of other sources |
| SiteStatuses.DefaultsExactly | apps/console/app/site-statuses.ts:144-154 | the store of the worker shows its five statuses, GitHub its four, Linear the states of the team, each untouched at its rank |
| SiteStatuses.ListExactly | apps/console/app/site-statuses.ts:110-142 | whatever list shows each default with the first row kept of it, then the rows of no default, by place and rank, is the list of the screen |
| StatusStore.WriteMove | apps/console/app/parts/status-list.tsx:125-140 | the loop over the statuses with no row saves each, then every row of the list takes its place |
| StatusStore.MoveReadsBack | apps/console/app/parts/status-list.tsx:118-141 | from any rows, what a move writes reads back as the list the screen showed, in full, each status with a row |
| StatusStore.OrderReadsBack | apps/console/app/parts/status-list.tsx:125-140 | the same for any order of the statuses, not only a swap of two |
| StatusStore.DefaultReadsBack | apps/console/app/parts/status-list.tsx:109-113 | from any rows, a default saved at its position, whatever was changed in it, reads back in place, and every other status as it was, with a row or without |
| StatusStore.ResetReadsBack | apps/console/app/parts/status-list.tsx:152-157 | a default that is reset reads back reset, in place and kept, and every other status as it was |
| StatusStore.SaveReadsBackExactly | apps/console/app/parts/status-list.tsx:109-113 | a status saved at its position reads back in place, with the order of the others, if and only if it is a default or none stands at the same position right after it |
| StatusStore.NewComesLastExactly | apps/console/app/parts/status-list.tsx:316-345 | a status added with a key of its own comes last, and the others stay in order, if and only if no other has a higher position |
| FreshKey.SlugShape | apps/console/app/site-statuses.ts:214-217 | a base is at most 48 plain characters with single hyphens inside, and there is none exactly when the name holds no plain character |
| FreshKey.SlugTwice | apps/console/app/site-statuses.ts:214-217 | the base of a base is itself |
| FreshKey.SlugExactly | apps/console/app/site-statuses.ts:209-217 | the base of a name is its words of plain characters, in full and in order, joined by hyphens, and cut at 48 characters without a hyphen at the end |
| FreshKey.WordsOf | apps/console/app/site-statuses.ts:209-217 | every name has such words |
| FreshKey.TakenTurns | apps/console/app/site-statuses.ts:218-219 | by pigeonhole, no more suffixes end on a taken key than there are taken keys |
| FreshKey.KeyFor | apps/console/app/site-statuses.ts:207-222 | the loop ends on the first free suffix; below 10^15 taken keys, the key is free, is not built in, and is one the worker takes |
| FreshKey.KeyExactly | apps/console/app/site-statuses.ts:207-222 | the key is the base, or the base with the least number from 2 that is free, and is none of the five built in |
| FreshKey.RefusedIsDrawn | apps/console/app/site-statuses.ts:218-221 | however many keys are taken, the first free key is given if and only if the worker takes it, and else one is drawn |
| FreshKey.AddedKeysDistinct | apps/console/app/site-statuses.ts:203-222 | statuses added one after another, whatever their names, never share a key |
| BoardColumns.PutNotes | apps/console/app/board-columns.ts:49-60 | the loop over the notes puts each, in order, in its status or in the column of its stage |
| BoardColumns.Board | apps/console/app/board-columns.ts:27-66 | the columns are those of the specification, in the order of the site and then of the stages |
| BoardColumns.PlaceExactly | apps/console/app/board-columns.ts:43-58 | a note stands with the status it names, else with the shown built-in one of its stage, else with the first shown of its stage, else in a column of its stage |
| BoardColumns.BoardExactly | apps/console/app/board-columns.ts:38-66 | the columns are one for each status that is shown or holds a note, in the order of the site, then one for each stage with notes that no status takes |
| BoardColumns.LastOfKey | apps/console/app/board-columns.ts:39-41 | of the statuses of one key, the last one is on the board |
| BoardColumns.KeysByFirst | apps/console/app/board-columns.ts:39-41 | and it stands where the first one was |
| BoardColumns.StagesExactly | apps/console/app/board-columns.ts:31-37 | without statuses, the columns are the five stages with their notes |
| BoardColumns.BoardConserves | apps/console/app/board-columns.ts:27-66 | whatever the statuses, the columns together hold the notes shown, each as often |
| BoardColumns.HiddenByChoice | apps/console/app/board-columns.ts:42-63 | a hidden status has a column only for notes that say they are in it, and none is put there for its stage |
| PageWindow.PagesOf | apps/console/app/page-window.ts:12-18 | the loop over the set of pages adds each that stands alone between two, and keeps those that can be reached |
| PageWindow.FindWindow | apps/console/app/page-window.ts:11-30 | the loop over the pages computes the links of the specification |
| PageWindow.WindowRight | apps/console/app/page-window.ts:11-30 | for any reach: the pages climb within the list, hold the one shown, and gaps stand exactly where pages are missing, never two in a row |
| PageWindow.FullWindow | apps/console/app/page-window.ts:3-10 | with every page reached, the window is the page shown between two ends of three links at most, each gap over two pages or more, seven links in all |
| GuideBlock.AroundStays | apps/console/app/guide-steps.ts:138-145 | with no mark before a proper block, all around it stays |
| GuideBlock.LastWriteWins | apps/console/app/guide-steps.ts:138-145 | a block written over another is written as if the first had not been |
| GuideBlock.WriteTwice | apps/console/app/guide-steps.ts:138-145 | writing a block again changes nothing |
| GuideBlock.BlockIsProper | apps/console/app/guide-steps.ts:112-136 | the block of the guide can be replaced again if and only if no step, and not the captures, holds the end mark |
| GuideBlock.GuideExactly | apps/console/app/guide-steps.ts:128-135 | the block is its mark, every step in order, the sentence of the captures and the end mark, each with a line left empty before the next |
| GuideBlock.AroundStaysExactly | apps/console/app/guide-steps.ts:138-145 | with no mark before a block that opens with its mark, all around it stays if and only if its only end mark is its last text |
| GuideBlock.LastWriteWinsExactly | apps/console/app/guide-steps.ts:138-145 | in any document, such a block is written over as if it had not been there if and only if its only end mark is its last text |
| GuideBlock.GuideIsReplacedExactly | apps/console/app/guide-steps.ts:112-145 | in any document with a block, the guide is written over as if it had not been there if and only if no step, and not the captures, holds the end mark |
| GuideBlock.EndInside | apps/console/app/guide-steps.ts:139-145 | a block with an end mark of its own leaves its last part behind |
| MutationCost.TestsRun | tools/mutation-study/cost.ts:113-114 | a killed mutant runs up to its killer, another one runs all that reach it |
| MutationCost.CostOf | tools/mutation-study/cost.ts:90-133 | the loop over the mutants computes the sums and means of the specification |
| MutationCost.CostExactly | tools/mutation-study/cost.ts:90-133 | every figure of a cost, from what each mutant is reached by and runs: the means, and the sums of times with one start for each test |
| MutationCost.Killers | tools/mutation-study/cost.ts:77-84 | the loop counts, for each test, the mutants it killed first |
| MutationCost.KillsExactly | tools/mutation-study/cost.ts:77-84 | the kills of a test are the killed mutants that name it first, counted |
| MutationCost.PrunedRun | tools/mutation-study/cost.ts:97-114 | with its killer kept, a mutant runs exactly the kept tests of those it ran |
| MutationCost.PrunedEndsOnKiller | tools/mutation-study/cost.ts:113-114 | pruned or not, a killed mutant ends on its killer |
| MutationCost.PruningIsNotDearer | tools/mutation-study/cost.ts:86-133 | with the killers kept and times not negative, no figure of the cost goes up |
| MutationCost.KillersAreNotDearer | tools/mutation-study/cost.ts:76-133 | cut down to its killers, a report that names them costs no more |
| MutationCost.NeverDearerExactly | tools/mutation-study/cost.ts:113-114 | no choice of tests makes a killed mutant run more if and only if the tests of another name than its killer's (the empty name when none is named) are no more than those up to the first of that name |
| MutationCost.KillersNeverDearerExactly | tools/mutation-study/cost.ts:76-114 | over every report that holds a killed mutant, cut down to its killers, the mutant runs no more if and only if it names its killer, or no test that reaches it has the empty name, or the tests of another name are no more than those up to the first with the empty one |
| MutationCost.UnnamedKillerIsDearer | tools/mutation-study/cost.ts:76-114 | a report whose pruning to the killers runs more tests |
| MutationCost.RanAsReported | tools/mutation-study/cost.ts:64-74 | when no mutant disagrees, the tests that ran are those the report counts |
| MutationCost.RanOfReport | tools/mutation-study/cost.ts:64-133 | when no mutant disagrees, the mean of the tests that ran is that of the counts of the report |
| MutationCost.InconsistentExactly | tools/mutation-study/cost.ts:64-74 | a mutant is listed if and only if its count is not the place of its first killer, or all its tests when it survived |
| Ratchet.ScoreReaches | tools/mutation/ratchet.ts:47-58 | a score is the highest number of hundredths that was measured, never more |
| Ratchet.CountsExactly | tools/mutation/ratchet.ts:44-52 | detected mutants are the killed and the timed out, and valid ones those, the survivors and the ones that no test reached: the count of a line |
| Ratchet.MeasureLines | tools/mutation/ratchet.ts:61-70 | the loop over the files computes the lines of the specification |
| Ratchet.LineLookup | tools/mutation/ratchet.ts:61-70 | the line of a file is the score of its mutants, and there is none exactly when no mutant was valid |
| Ratchet.PackageBetween | tools/mutation/ratchet.ts:53-69 | the score of a package is between the least and the greatest of its files, also once rounded |
| Ratchet.FindRegressions | tools/mutation/ratchet.ts:78-106 | the loops list what fails, in order |
| Ratchet.RegressionsExactly | tools/mutation/ratchet.ts:77-106 | a run fails nothing if and only if every file holds its line or that of the package, and a full run also measured every file and holds as a package |
| Ratchet.ReportedExactly | tools/mutation/ratchet.ts:77-106 | a failure is reported if and only if a file is under its line, or has none and is under the package, or a full run did not measure it, or a full run is under the line of the package |
| Ratchet.WriteThenCheck | tools/mutation/ratchet.ts:4-12 | a later run with the same valid mutants and none lost fails nothing, full or not |
| Ratchet.StaysDetectedNoWorse | tools/mutation/ratchet.ts:44-57 | mutants that stay valid, each one detected still detected, are no worse in count |
| Ratchet.MergedIsJoined | tools/mutation/ratchet.ts:72-75 | reports that share no file, merged, are their files in turn |
| Ratchet.LaterCounts | tools/mutation/ratchet.ts:72-75 | of two reports that hold a file, the later one counts |
| Ratchet.MergedOrderFree | tools/mutation/ratchet.ts:60-75 | the lines of a package do not depend on the order of the reports of its jobs |
| Ratchet.FilesAreEnough | tools/mutation/ratchet.ts:77-106 | with as many valid mutants in each file, no more than ten thousand, files that hold make the package hold |
| Ratchet.FilesAreEnoughExactly | tools/mutation/ratchet.ts:77-106 | for given lines and sizes of the files, every full run where all files hold fails nothing if and only if the files, each at its line and no higher, make a package at its own |
| Ratchet.WrittenWithin | tools/mutation/ratchet.ts:41-70 | the lines that a run writes are hundredths of a whole, as the lines above are |
| Ratchet.FilesAreNotEnough | tools/mutation/ratchet.ts:101-103 | a run where every file holds and the package does not |

## Left out

- Floating point: durations, means, seconds and scores are exact reals or integers. In doubles a sum depends on the order of its terms, and a score can differ by a hundredth.
- Strings are sequences of characters: UTF-16 code units, Unicode normalisation, case and accents are not part of this model. `FreshKey.Slug` starts from a name in lower case without accents.
- `localeCompare` is a parameter, any total order of the names; the order of paths is by character.
- Preconditions of the scheduler: durations are not negative and there is at least one worker, as `durations.json` and `CI_WORKERS` give.
- Reading the folder, `durations.json`, the lists and the reports: they are arguments. `Number()` of a part number over 2^53 is exact here.
- ShardProperties.PartsOrderFree: the mean of the known durations is an exact sum, so the order of the folder cannot change its last digit as it can in doubles.
- MutationCost.CostOf: the mean of no mutants, not a number in the source, is an absent value.
- Ratchet.MeasureLines: an object by name keeps the order of its entries; the source's engine puts names that are whole numbers first, and names of `Object.prototype` are not special here.
- StatusStore: the worker answers a row as it was posted, and a move whose writes are refused part-way is not part of this model.
- TabHistory: the screens that listen for a `401` (`apps/console/app/api.ts:439`) are not part of this model.
- LocaleLoader: a listener does not change the language or the set of listeners while it is called; the map of a language holds the same words at each load; `nearest`, the storage of the choice, `chooseLanguage` and `adoptLanguage` are not part of this model.
- ConnectWatch: a change of visibility and its event are one step, and `onConnected` does not call back into the watch.
- TabSignal: a message reaches every tab that is there when it is posted, in any order and after any time, and the tab that posted it too, which ignores it. A message of the model also holds who said it and when, to state who told a link; no function decides on them.
- SetupProtocol: a person with an invitation who accepts it, and the name asked for a workspace, are not part of this model; a workspace that is made is not removed.
- TeamProtocol: the teams of the worker do not change during a run.
- GuideBlock: the sentences of the steps, with their controls replaced, are given; `guideParts` and `controlText` are not part of this model.
- FreshKey.KeyFor: the last draw is out of reach below 10^15 taken keys; nothing is said of its being free beyond that, as the source does not look.
- The cursor loop of `siteChoices`, `callUntilAnswered`, `signInProviders` and the HTTP wrappers of `api.ts`: thin calls around the worker, which is not part of this model.
- `firstNoteOf`, `recommendedWay`, `offersMore` and `isChanged`, `listOf`, `takesNotes`: expressions that would only add easy members.
- `tools/mutation-study/count.ts`: its walk needs the syntax tree of the TypeScript compiler.
- React components, styles, message catalogues, the extension's entry points, and the scripts that call git, `gh` or ffmpeg.
