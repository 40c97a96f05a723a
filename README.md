# Task manager core, modelled in Dafny

This project models the part of the task-manager server that holds real logic:

- **Comment service** (`comments_service.dfy`). It keeps every comment attached to exactly one task or one project. The attachment goes through two join tables, `commentTask` and `commentProject`. The store is a `Database` class:
  - the ids of users, tasks and projects;
  - the comment table, a map from comment id to content and creator;
  - the two join tables, as sequences of `Link(commentId, targetId)` in table order;
  - the next comment id.

  Each store call the service makes (`comment.create`, `deleteMany` on a join table, `comment.update`, a link `create`, `comment.delete`) is a method of `Database`. Each `$transaction` is one method built from those steps. The service operations `Create`, `Update`, `Delete`, `GetById`, `GetByTaskId` and `GetByProjectId` return the response envelope. Their contracts spell out every 400/404 path. Each of those paths leaves the store unchanged. Every operation keeps the invariant that each comment has exactly one target (`ExclusiveTargets`).
- **Concrete runs** (`comments_scenarios.dfy`). Short runs of the service on a fresh store. Each one states the status codes it answers with.
- **Response shaping** (`normalizers.dfy`, `api.dfy`). These are pure functions:
  - flattening the `labelLinks`/`commentLinks` wrappers of a fetched record into `labels`/`comments`;
  - the pass-through envelope `standardiseResponse`.
- **Seed resolution** (`tasks_seed.dfy`, `projects_seed.dfy`, `comments_seed.dfy`, `seed_lookup.dfy`, `text.dfy`). These are the three seeding loops. Each one resolves names through lookup maps keyed by `toLookupKey` (trim, then lower-case):
  - The task seeder is a work queue that creates parents before children. `SeedTasks` ends on any seed list whose parent chains are grounded, and on any list with an unknown creator, which it reports for the first such seed. `CompleteRunGrounded` gives the converse: a run that creates every seed shows that the list is grounded. The seed list itself is grounded (`TasksGrounded`).
  - The project seeder throws on the first name that does not resolve.
  - The comment seeder creates each comment row before it resolves that comment's targets.

Optional string inputs are `Option<string>`. `None` stands for `undefined`/`null`. `Js.Truthy` is JavaScript truthiness on such a value: present and not `""`. The update path mixes `??` (which keeps `""`) with truthiness tests. A given `taskId: ""` therefore stops update from falling back to the existing task link, and the request is refused with 400 (`EmptyTaskIdDropsExistingTask`, `EmptyTaskIdOnUpdate`).

## Model

| member | source | states |
|---|---|---|
| Text.TrimStart | server/prisma/seed/tasks.seed.ts:4 | dropping leading whitespace never lengthens the string; its contents are stated by TrimStartSpec |
| Text.TrimStartSpec | server/prisma/seed/tasks.seed.ts:4 | the leading part of `trim`: the result is a suffix of the input, everything dropped is whitespace, and the result does not start with whitespace |
| Text.TrimEnd | server/prisma/seed/tasks.seed.ts:4 | dropping trailing whitespace never lengthens the string; its contents are stated by TrimEndSpec |
| Text.TrimEndSpec | server/prisma/seed/tasks.seed.ts:4 | the trailing part of `trim`: the result is a prefix of the input, everything dropped is whitespace, and the result does not end with whitespace |
| Text.BlankIffAllWhitespace | server/services/comments.service.ts:121 | `s.trim().length === 0` holds exactly when every character of `s` is whitespace |
| Text.LowerChar | server/prisma/seed/tasks.seed.ts:4 | upper-case ASCII letters map to the lower-case letter 32 code points above, every other character is kept, and whitespace stays whitespace |
| Text.ToLower | server/prisma/seed/tasks.seed.ts:4 | `toLowerCase` keeps the length |
| Text.ToLowerSpec | server/prisma/seed/tasks.seed.ts:4 | `toLowerCase` lowers character by character |
| Text.ToLowerAppend | server/prisma/seed/tasks.seed.ts:4 | lowering a concatenation lowers each part |
| Text.TrimStartToLower | server/prisma/seed/tasks.seed.ts:3-5 | trimming the start commutes with lowering |
| Text.TrimEndToLower | server/prisma/seed/tasks.seed.ts:3-5 | trimming the end commutes with lowering |
| Text.LookupKeyLowersFirst | server/prisma/seed/tasks.seed.ts:3-5 | `toLookupKey` gives the same key whether it trims or lowers first |
| Text.LookupKeyIgnoresCase | server/prisma/seed/tasks.seed.ts:3-5 | two names that differ only in letter case have the same lookup key |
| Text.TrimStartSkipsWhitespacePrefix | server/prisma/seed/tasks.seed.ts:4 | leading whitespace added to a string is removed again by trimming the start |
| Text.TrimEndSkipsWhitespaceSuffix | server/prisma/seed/tasks.seed.ts:4 | trailing whitespace added to a string is removed again by trimming the end |
| Text.TrimStartIdempotent | server/prisma/seed/tasks.seed.ts:4 | trimming the start twice is trimming it once |
| Text.TrimEndOfTrimmedStart | server/prisma/seed/tasks.seed.ts:4 | trimming the end of a string that does not start with whitespace leaves one that neither starts nor ends with whitespace, so `trim` removes all surrounding whitespace |
| Text.TrimmedIsFixed | server/prisma/seed/tasks.seed.ts:4 | a string that neither starts nor ends with whitespace is left unchanged by `trim` |
| Text.LookupKeyIgnoresSurroundingWhitespace | server/prisma/seed/tasks.seed.ts:3-5 | whitespace around a name does not change its lookup key |
| Text.LookupKeyIdempotent | server/prisma/seed/tasks.seed.ts:3-5 | a lookup key is its own lookup key |
| Text.ToLowerIdempotent | server/prisma/seed/tasks.seed.ts:4 | lowering twice is lowering once |
| Text.NatToString | server/services/comments.service.ts:233 | the id in a message is a non-empty run of decimal digits, with a leading `0` only for id 0 |
| Text.NatToStringValue | server/services/comments.service.ts:233 | the digits read back in base 10 give the id |
| Text.NatToStringInjective | server/services/comments.service.ts:233 | two ids render to the same text exactly when they are equal, so messages name ids unambiguously |
| Api.SortOrderName | server/utils/api.ts:8-11 | a sort order is spelt `"asc"` or `"desc"` and nothing else, and the two orders are spelt differently |
| Api.StandardiseResponse | server/utils/api.ts:31-47 | the envelope copies httpStatus, message, data, error, pagination and sorting unchanged; absent fields stay absent and nothing is defaulted |
| Api.PropsOfStandardise | server/utils/api.ts:31-47 | the arguments can be read back from the envelope, so nothing is lost |
| Api.StandardiseInverse | server/utils/api.ts:31-47 | every response value is the envelope of some arguments |
| Api.Reply | server/services/comments.service.ts:36-39 | the replies the service builds carry the given status, message and payload, and no error, pagination or sorting |
| Normalizers.Pluck | server/utils/normalizers.ts:19 | `link?.label` taken from each link, in order, one per link |
| Normalizers.FilterTruthy | server/utils/normalizers.ts:20 | the kept values are exactly the truthy ones |
| Normalizers.FilterTruthyAppend | server/utils/normalizers.ts:19-20 | the filter works piecewise, so it keeps input order |
| Normalizers.FilterTruthyIdempotent | server/utils/normalizers.ts:20 | filtering twice is filtering once |
| Normalizers.NormalizeWithLabels | server/utils/normalizers.ts:16-29 | `labelLinks` is removed; `labels` is always (over)written with the flattened labels; every other key keeps its value; the key set is the input's minus `labelLinks` plus `labels` |
| Normalizers.LabelsOfLinks | server/utils/normalizers.ts:17-21 | the labels are the in-order truthy `label` entries: a link contributes its label exactly when that label is truthy |
| Normalizers.NoLinksNoLabels | server/utils/normalizers.ts:17-21 | a missing or non-array `labelLinks` gives `labels: []` |
| Normalizers.NormalizeTwiceResetsLabels | server/utils/normalizers.ts:17-28 | normalising an already normalised record resets `labels` to `[]` |
| Normalizers.NormalizeWithLabelsNotIdempotent | server/utils/normalizers.ts:16-29 | one record with a label link shows that normalising twice differs from normalising once |
| Normalizers.NormalizeManyWithLabels | server/utils/normalizers.ts:31-33 | element-wise: same length, element `i` is the normalised element `i` |
| Normalizers.NormalizeWithLabelsAndComments | server/utils/normalizers.ts:35-54 | both link keys are removed; `labels` are those of `normalizeWithLabels`; `comments` are the in-order truthy `comment` entries of `commentLinks`; every other key keeps its value |
| Normalizers.NormalizeManyWithLabelsAndComments | server/utils/normalizers.ts:56-60 | element-wise: same length and order |
| Normalizers.NormalizeManyAppend | server/utils/normalizers.ts:31-60 | both list normalisers distribute over concatenation |
| SeedLookup.Index | server/prisma/seed/tasks.seed.ts:221-233 | `new Map(entries)` has exactly the entries' keys, and the final entry always sets the value under its own key |
| SeedLookup.IndexLastWins | server/prisma/seed/tasks.seed.ts:221-233 | under a key, the map holds the value of the last entry with that key |
| SeedLookup.IndexValueFromEntry | server/prisma/seed/tasks.seed.ts:221-233 | every stored value comes from an entry with that key |
| SeedLookup.Get | server/prisma/seed/tasks.seed.ts:245 | `map.get(key)` is present exactly for keys in the map, and then is the stored value |
| SeedLookup.ExactIndexFinds | server/prisma/seed/tasks.seed.ts:221 | an e-mail finds a user exactly when some user row has that e-mail, and it finds the id of such a row |
| SeedLookup.KeyIndexFinds | server/prisma/seed/tasks.seed.ts:222-233 | a name finds a row exactly when some row's name has the same lookup key, and it finds the id of such a row |
| SeedLookup.FindIgnoresCase | server/prisma/seed/tasks.seed.ts:267-275 | lookups by name ignore letter case |
| SeedLookup.FindIgnoresSurroundingWhitespace | server/prisma/seed/tasks.seed.ts:267-275 | lookups by name ignore surrounding whitespace |
| TasksSeed.ResolveOptional | server/prisma/seed/tasks.seed.ts:267-275 | a priority, status or project id is set exactly when the name is truthy and its lookup key is in the map, and then is the mapped id; otherwise it is `null` and nothing fails |
| TasksSeed.LookupKeys | server/prisma/seed/tasks.seed.ts:279 | one lookup key per label name, in order |
| TasksSeed.KnownIds | server/prisma/seed/tasks.seed.ts:280-281 | the filter over known keys yields no more ids than keys |
| TasksSeed.KnownIdsMembers | server/prisma/seed/tasks.seed.ts:280-281 | an id is kept exactly when some key resolves to it |
| TasksSeed.ResolveLabelsMembers | server/prisma/seed/tasks.seed.ts:276-283 | a label id is linked exactly when some label name's lookup key resolves to it |
| TasksSeed.KnownIdsAppend | server/prisma/seed/tasks.seed.ts:280-281 | keys resolve one by one, so resolution distributes over concatenation |
| TasksSeed.ResolveLabelsAppend | server/prisma/seed/tasks.seed.ts:276-283 | label ids keep the order of the names |
| TasksSeed.LookupKeysAppend | server/prisma/seed/tasks.seed.ts:279 | keys of a concatenation are the concatenated keys |
| TasksSeed.KnownIdsSkipsUnknown | server/prisma/seed/tasks.seed.ts:280 | an unknown key contributes nothing |
| TasksSeed.UnknownLabelDropped | server/prisma/seed/tasks.seed.ts:276-283 | an unknown label name is dropped silently: the result is as if it were not there |
| TasksSeed.KnownIdsAllKnown | server/prisma/seed/tasks.seed.ts:280-281 | when every key is known there is one id per key, in order |
| TasksSeed.ResolveLabelsAllKnown | server/prisma/seed/tasks.seed.ts:276-283 | when every label name resolves there is one label id per name, in order |
| TasksSeed.BuildTask | server/prisma/seed/tasks.seed.ts:258-284 | the created row carries the seed's title and description, the creator and parent ids, the optional priority/status/project ids, and label links exactly when `labelNames` is present |
| TasksSeed.Decide | server/prisma/seed/tasks.seed.ts:245-288 | one turn of the loop: an unknown creator throws (checked before the parent test); otherwise a parent key that is not yet recorded re-queues the task; otherwise the task is created with the recorded parent id, or `null` without a parent key |
| TasksSeed.GroundedMonotone | server/prisma/seed/tasks.seed.ts:238-256 | a parent chain grounded within `n` steps is grounded within any larger bound |
| TasksSeed.EarlierGrounded | server/prisma/seed/tasks.seed.ts:238-256 | when parents come before their children in the list, the chain from seed `i` is grounded within `i + 1` steps |
| TasksSeed.ParentsFirstGrounded | server/prisma/seed/tasks.seed.ts:238-256 | a list whose parents come before their children has every parent chain grounded |
| TasksSeed.Indices | server/prisma/seed/tasks.seed.ts:236 | the queue starts with every seed position, in order |
| TasksSeed.IndicesOnce | server/prisma/seed/tasks.seed.ts:236 | each seed position is queued once at the start |
| TasksSeed.FirstReadyAppend | server/prisma/seed/tasks.seed.ts:253-256 | the distance to the first creatable task is unchanged by appending to a queue that already contains one |
| TasksSeed.ReadyExists | server/prisma/seed/tasks.seed.ts:238-256 | while every seed is queued or recorded and parent chains are grounded, some queued task can be created |
| TasksSeed.InsertKeeps | server/prisma/seed/tasks.seed.ts:258-288 | creating the task `Decide` chose keeps every created row tied to its seed, its resolved fields and its parent, the latest earlier task created under the parent key |
| TasksSeed.LatestKeeps | server/prisma/seed/tasks.seed.ts:288 | after `taskIdByKey.set`, each key maps to the latest created task with that key |
| TasksSeed.RecordKeeps | server/prisma/seed/tasks.seed.ts:288 | recording the new task's key keeps `taskIdByKey` consistent with the created tasks |
| TasksSeed.QueueMove | server/prisma/seed/tasks.seed.ts:239-256 | shifting the head and then creating it or pushing it back keeps every seed position in exactly one of queue and created |
| TasksSeed.AllCreatorsResolved | server/prisma/seed/tasks.seed.ts:245-251 | when every seed was created, every creator e-mail resolved |
| TasksSeed.Covered | server/prisma/seed/tasks.seed.ts:238-256 | every seed is still queued or already recorded under its key |
| TasksSeed.StillReady | server/prisma/seed/tasks.seed.ts:238-256 | a non-empty queue always holds a task that can be created |
| TasksSeed.LoopStart | server/prisma/seed/tasks.seed.ts:234-236 | the loop invariants hold for the initial queue and empty maps, and the first pass over the queue has not begun |
| TasksSeed.RequeueStep | server/prisma/seed/tasks.seed.ts:253-256 | pushing a not-ready head to the back keeps the invariant and, on a grounded list, brings a creatable task one place closer to the head |
| TasksSeed.InsertQueue | server/prisma/seed/tasks.seed.ts:239-288 | taking the head to create it leaves the rest of the queue as seed positions, and the created and queued positions still number the seeds |
| TasksSeed.InsertStep | server/prisma/seed/tasks.seed.ts:258-288 | creating the head and recording its key keeps the queue invariant |
| TasksSeed.PassStep | server/prisma/seed/tasks.seed.ts:239-256 | taking a head whose creator resolves, then creating it or queuing it again, moves the first pass on by one seed |
| TasksSeed.PassNotOver | server/prisma/seed/tasks.seed.ts:239-251 | while some creator is unknown, the first pass has not ended |
| TasksSeed.ThrowIsFirst | server/prisma/seed/tasks.seed.ts:245-251 | a head with an unknown creator is met during the first pass, so it is the first such seed in list order |
| TasksSeed.CreatedGroundedWithin | server/prisma/seed/tasks.seed.ts:253-288 | the task created at step `p` has a parent chain grounded within `p + 1` steps, because its parent was created earlier |
| TasksSeed.CompleteRunGrounded | server/prisma/seed/tasks.seed.ts:238-290 | a run that creates every seed once shows that the list's parent chains are grounded |
| TasksSeed.HeadStep | server/prisma/seed/tasks.seed.ts:239-251 | the head of the queue is a seed, and no seed was created twice |
| TasksSeed.LoopEnd | server/prisma/seed/tasks.seed.ts:238 | an empty queue means every seed was created exactly once and every creator resolved |
| TasksSeed.TasksGrounded | server/prisma/seed/tasks.seed.ts:24-181 | in the seed list every parent key names an earlier seed, so every parent chain is grounded |
| TasksSeed.SeedTasks | server/prisma/seed/tasks.seed.ts:183-290 | the loop terminates on a grounded list and on a list with an unknown creator; each created row is built from a seed whose creator resolved, with its parent the latest earlier task created under the parent key (what `taskIdByKey.get` returns); no seed is created twice; without failure every seed is created once; it fails exactly when some creator e-mail does not resolve, with the message of the first such seed in list order |
| ProjectsSeed.ResolveNamed | server/prisma/seed/projects.seed.ts:197-215 | an absent or empty name resolves to "not named", a truthy name whose id is truthy to that id, and any other name to "missing" |
| ProjectsSeed.ResolveLabelIds | server/prisma/seed/projects.seed.ts:217-228 | succeeds exactly when every label name resolves, giving one id per name in order; otherwise throws naming the first name that does not resolve, as written |
| ProjectsSeed.ResolveProject | server/prisma/seed/projects.seed.ts:188-245 | throws for a missing creator first, then an unresolved priority, then status, then label, each with its message; succeeds exactly when none of these happens; the row then carries the resolved ids, leaves an unnamed priority or status unset, and has label links exactly when there is at least one label |
| ProjectsSeed.UnknownLabelThrows | server/prisma/seed/projects.seed.ts:217-228 | one label name that does not resolve fails the whole project |
| ProjectsSeed.ResolveNamedIgnoresCase | server/prisma/seed/projects.seed.ts:197-215 | priority and status names resolve regardless of letter case |
| ProjectsSeed.SeedProjects | server/prisma/seed/projects.seed.ts:188-246 | one project per entry, in order; it fails exactly when some entry does not resolve, with the message of the first such entry, and the rows created before it stay |
| CommentsSeed.Writes | server/prisma/seed/comments.seed.ts:64-112 | the row is written exactly when the creator resolves; an unknown task or project title throws after the row exists and leaves it unlinked; without error there is a task link iff a task title and a project link iff a project title |
| CommentsSeed.NextEntry | server/prisma/seed/comments.seed.ts:64-112 | writing one more entry extends the comment rows and both link tables by what that entry writes |
| CommentsSeed.LinksOfCount | server/prisma/seed/comments.seed.ts:89-111 | a comment has a link in a seeded join table exactly when its entry had a target for that table |
| CommentsSeed.SeededTargetCount | server/prisma/seed/comments.seed.ts:80-112 | when every entry goes through, seeded comment `k` has one target per title its entry names |
| CommentsSeed.SingleTargetEntries | server/prisma/seed/comments.seed.ts:80-112 | entries that each name one target leave every seeded comment with exactly one target |
| CommentsSeed.BothTitlesBothLinks | server/prisma/seed/comments.seed.ts:80-112 | an entry naming both a task and a project gets two links: the seeder does not enforce a single target |
| CommentsSeed.CommentsNameOneTarget | server/prisma/seed/comments.seed.ts:10-26 | every entry of the seed list names exactly one target |
| CommentsSeed.SeedEntry | server/prisma/seed/comments.seed.ts:65-112 | one turn on the store: the new rows and links are exactly those `Writes` describes, under the next comment id, and its error is `Writes`' error |
| CommentsSeed.SeedComments | server/prisma/seed/comments.seed.ts:32-114 | all comments and their links are deleted first; the entries are then written in order, and the store ends holding exactly what the processed entries wrote; it fails exactly when some entry fails, with the first failing entry's error |
| CommentsService.TargetsOf | server/services/comments.service.ts:302-303 | the targets of one comment through one join table are exactly the linked target ids |
| CommentsService.Unlinked | server/services/comments.service.ts:341-342 | `deleteMany({ where: { commentId } })` keeps exactly the rows of other comments |
| CommentsService.TargetsOfAppend | server/services/comments.service.ts:352-368 | appending link rows appends their targets |
| CommentsService.OneLinkTargets | server/services/comments.service.ts:352-368 | a single new link row is a target of its own comment only |
| CommentsService.TargetsOfUnlinked | server/services/comments.service.ts:341-342 | deleting one comment's links empties its targets and leaves every other comment's targets as they were |
| CommentsService.NoTargetsWithoutLinks | server/services/comments.service.ts:175-208 | a comment no row names has no targets, and deleting its links changes nothing |
| CommentsService.First | server/services/comments.service.ts:302-303 | `links[0]?.targetId` is present exactly when there is a link, and is the first one |
| CommentsService.Blank | server/services/comments.service.ts:121 | content is blank exactly when it is all whitespace |
| CommentsService.ValidateCreate | server/services/comments.service.ts:121-140 | create's 400 cases: content missing, empty or blank, creatorId falsy, or not exactly one truthy target; `"content is required"` exactly for the content cases |
| CommentsService.ValidateUpdate | server/services/comments.service.ts:255-274 | update's 400 cases: creatorId falsy, content supplied but blank, or both targets truthy; `"creatorId is required"` exactly when creatorId is falsy |
| CommentsService.ResolveNextTarget | server/services/comments.service.ts:302-314 | a truthy taskId wins, else a truthy projectId; both truthy gives no target; when neither given id is truthy, each kind falls back to its existing link only when the id is absent (`??` keeps a given `""`), and the target is that fallback when exactly one kind has a truthy one, otherwise none; a resolved target never names `""` |
| CommentsService.EmptyTaskIdDropsExistingTask | server/services/comments.service.ts:305-309 | a given `taskId: ""` stops the fallback to the existing task link (no target), while an absent taskId keeps it |
| CommentsService.Database.View | server/services/comments.service.ts:17-29 | the expanded comment carries its id, content, creator, and exactly its linked tasks and projects |
| CommentsService.Database.Views | server/services/comments.service.ts:42-51 | one expanded comment per id, in order |
| CommentsService.Database.LinkedTo | server/services/comments.service.ts:42-51 | `findMany` with `some: { targetId }`: only comments linked to the target, each once, in increasing id order; every linked comment is in the result; non-empty exactly when some link row names the target |
| CommentsService.Database.LinkedViews | server/services/comments.service.ts:42-51 | the views of the linked ids are linked to the target, in increasing id order, and there are some exactly when a link row names the target |
| CommentsService.Database.LinkedViewsComplete | server/services/comments.service.ts:42-51 | every comment linked to the target has its view among the linked views |
| CommentsService.LinkedIdsBelow | server/services/comments.service.ts:42-51 | the ids below a bound that are linked to the target, strictly increasing, and all of them |
| CommentsService.LinkedIdsAll | server/services/comments.service.ts:42-51 | with every id below the bound, a linked comment is found |
| CommentsService.LinkedIdsNonEmpty | server/services/comments.service.ts:42-51 | with every id below the bound, some ids are found exactly when a link row names the target |
| CommentsService.Database.CreateComment | server/services/comments.service.ts:175-208 | `comment.create` with a nested link: a fresh id, one new row, one new link to the given target and no other change; the new comment has exactly one target and the invariant is kept |
| CommentsService.Database.InsertComment | server/prisma/seed/comments.seed.ts:73-78 | `comment.create` without a link: a fresh id that no link names, one new row, nothing else changed |
| CommentsService.Database.DeleteTaskLinks | server/services/comments.service.ts:341 | removes exactly the comment's task links |
| CommentsService.Database.DeleteProjectLinks | server/services/comments.service.ts:342 | removes exactly the comment's project links |
| CommentsService.Database.UpdateComment | server/services/comments.service.ts:344-350 | sets the creator, and the content only when one is supplied |
| CommentsService.Database.CreateTaskLink | server/services/comments.service.ts:353-358 | appends one task link row |
| CommentsService.Database.CreateProjectLink | server/services/comments.service.ts:362-367 | appends one project link row |
| CommentsService.Database.DeleteComment | server/services/comments.service.ts:403 | removes the row, which no link may name |
| CommentsService.Database.DeleteAllComments | server/prisma/seed/comments.seed.ts:33 | empties the comment table and both join tables; users, tasks, projects and the id counter are unchanged |
| CommentsService.Database.UpdateTransaction | server/services/comments.service.ts:340-374 | drops every link of the comment, updates the row, links the resolved target: the comment ends with exactly one target and the invariant is kept |
| CommentsService.Database.DeleteTransaction | server/services/comments.service.ts:400-404 | drops every link of the comment and the row; every other comment keeps its targets |
| CommentsService.RelinkedCount | server/services/comments.service.ts:340-368 | after relinking, the comment has one target and every other comment has the targets it had |
| CommentsService.RelinkKeepsExclusive | server/services/comments.service.ts:340-368 | relinking one comment keeps "every comment has exactly one target" |
| CommentsService.Create | server/services/comments.service.ts:118-222 | 400 with the validation message for bad input; 404 with `User with ID … not found` for a missing creator, then `Task with ID … not found` for a truthy taskId whose row is missing, then `Project with ID … not found` likewise for a truthy projectId; otherwise 201 with one new comment and exactly one link, to the task if taskId is truthy, else to the project; every non-201 answer leaves the store unchanged |
| CommentsService.GetById | server/services/comments.service.ts:224-250 | 404 for an unknown id, otherwise 200 with the expanded comment |
| CommentsService.Update | server/services/comments.service.ts:252-388 | 400 for bad input; 404 for a missing comment, then a missing creator; 400 when the next target is not exactly one; 404 with `Task with ID … not found` or `Project with ID … not found` for the target id when its row is missing; otherwise 200, with content changed only if supplied, the creator set, and the old links replaced by one link to the next target; every non-200 answer leaves the store unchanged |
| CommentsService.Delete | server/services/comments.service.ts:390-417 | 404 and no change for an unknown id; otherwise 204, the row and all its links of both kinds removed |
| CommentsService.GetByTaskId | server/services/comments.service.ts:32-72 | 404 `Task with ID … not found` for an unknown task; 404 `No comments found for task …` when no comment is linked to it; otherwise 200 `List comments for task …` with exactly the comments linked to it, each listing that task, in increasing id order |
| CommentsService.GetByProjectId | server/services/comments.service.ts:74-116 | as GetByTaskId, for project links |
| CommentsScenarios.CommentOnTask | server/services/comments.service.ts:175-214 | creating a comment on a task in a fresh store answers 201 and writes one row and one task link |
| CommentsScenarios.ListedOnTask | server/services/comments.service.ts:32-64 | a comment created on a task is then listed for that task: 201, 200 |
| CommentsScenarios.Retarget | server/services/comments.service.ts:340-380 | moving a comment from a task to a project: 201, 200, then 404 for the task and 200 for the project |
| CommentsScenarios.CreateThenDelete | server/services/comments.service.ts:390-409 | after a delete, getById, the project listing and a second delete all answer 404 |
| CommentsScenarios.CreateRejections | server/services/comments.service.ts:135-151 | no target and both targets answer 400, an unknown creator 404 |
| CommentsScenarios.EmptyTaskIdOnUpdate | server/services/comments.service.ts:305-314 | on a task comment, update with `taskId: ""` answers 400 while update without taskId answers 200 |

## Left out

- The 500 answers of every `catch` block: store errors are not modelled, so no store call fails.
- Transactions are modelled as single methods that always complete. Isolation, concurrency and rollback after a crash are not modelled.
- Comment ids are consecutive naturals drawn from a counter, not database-generated strings. Messages render them in decimal.
- Prisma `include` expansion is modelled as the comment's own fields plus its linked task and project ids. The related rows themselves (creator, task and project records) are not expanded.
- `trim` and `toLowerCase` cover ASCII whitespace and ASCII letters only. Unicode whitespace and case mapping are not modelled.
- Update with an explicit `content: null` is not distinguished from absent content. Update is modelled only for string or absent content.
- Dates, `estimatedHours` and `endDate` in the seed data are left out, along with the fields derived from them.
- The `PROJECTS` seed list is not reproduced. `SeedProjects` is stated for any list of entries.
- `task.deleteMany()` and the project delegate's `deleteMany()` before seeding are modelled by starting from an empty list of created rows. The project-delegate presence check is left out.
- The `if (!task) break` in the task loop cannot fire on a non-empty queue of seed objects, so it has no counterpart.
- `comment.deleteMany()` is modelled as removing the join rows of the deleted comments too. That cascade belongs to the database schema, which is not part of this model.
- The plain CRUD services, the controllers, the routes, the error middleware and `seed/index.ts` are not part of this model. Neither are the simple constant-table seeders for users, labels, statuses, priorities and roles. The comments router is not mounted by the server (server/server.ts:32-37). The service is modelled as written anyway.
- TasksSeed.SeedTasks: the requires admits only lists whose parent chains are grounded or that have an unknown creator. On any other list (a parent key that names no seed, or keys that form a cycle) the source requeues forever, so there is nothing to return. `CompleteRunGrounded` shows that the requires holds whenever the loop creates every seed.
- Task ids in the task seeder are positions in the list of created rows, not ids generated by the store. Parent links therefore name positions.
- CommentsService.Database.LinkedTo: `findMany` has no `orderBy`, so the database fixes the row order. The model returns comments in increasing id order as one admissible order.
- JavaScript numbers are modelled as unbounded integers (`nat` ids and queue positions). The 2^53 limit on exact integers is not modelled.
- Api.SortOrderName: the TypeScript literal type `"asc" | "desc"` is modelled as a two-valued datatype, so no other value can be built. That is stronger than the type check the source gets.
