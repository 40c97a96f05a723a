/**
 * The task seeder: tasks are created from a fixed list, parents before their
 * sub-tasks, by a work queue that sends a task whose parent has not been
 * created yet to the back of the queue. Priority, status, project and label
 * names are resolved case-insensitively; names that do not resolve become
 * `null` (or, for labels, are dropped) instead of failing.
 *
 * The store writes are the rows appended to `created`; the id the store gives
 * a created task is its position in `created`.
 */
module TasksSeed {
  import opened Wrappers
  import opened Text
  import opened Js
  import opened SeedLookup

  /** One entry of the seed list; dates and estimates are not modelled. */
  datatype TaskSeed = TaskSeed(
    key: string,
    title: string,
    description: Option<string>,
    creatorEmail: string,
    parentKey: Option<string>,
    labelNames: Option<seq<string>>,
    priorityName: Option<string>,
    statusName: Option<string>,
    projectTitle: Option<string>)

  /** The data of one `task.create`; `labelIds` is `None` when no `labelLinks`
      are written at all. */
  datatype TaskRow = TaskRow(
    title: string,
    description: Option<string>,
    creatorId: string,
    parentId: Option<nat>,
    priorityId: Option<string>,
    statusId: Option<string>,
    projectId: Option<string>,
    labelIds: Option<seq<string>>)

  /** The maps built from the rows read before the loop. */
  datatype Lookups = Lookups(
    userIdByEmail: map<string, string>,
    labelIdByName: map<string, string>,
    priorityIdByName: map<string, string>,
    statusIdByName: map<string, string>,
    projectIdByTitle: map<string, string>)

  /** Users are looked up by exact e-mail, everything else by lookup key. */
  function BuildLookups(
    users: seq<NamedRow>, labels: seq<NamedRow>, priorities: seq<NamedRow>,
    statuses: seq<NamedRow>, projects: seq<NamedRow>): Lookups
  {
    Lookups(ExactIndex(users), KeyIndex(labels), KeyIndex(priorities), KeyIndex(statuses), KeyIndex(projects))
  }

  /** `name ? (map.get(toLookupKey(name)) ?? null) : null`: an absent, empty or
      unknown name gives `null`, never an error. */
  function ResolveOptional(m: map<string, string>, name: Option<string>): (r: Option<string>)
    ensures r.Some? <==> Truthy(name) && LookupKey(name.value) in m
    ensures r.Some? ==> r.value == m[LookupKey(name.value)]
  {
    if Truthy(name) then Find(m, name.value) else None
  }

  /** `names.map((name) => toLookupKey(name))`. */
  function LookupKeys(names: seq<string>): (r: seq<string>)
    ensures |r| == |names| && forall i :: 0 <= i < |names| ==> r[i] == LookupKey(names[i])
  {
    seq(|names|, i requires 0 <= i < |names| => LookupKey(names[i]))
  }

  /** `.filter((key) => map.has(key)).map((key) => map.get(key))`. */
  function KnownIds(m: map<string, string>, keys: seq<string>): (r: seq<string>)
    ensures |r| <= |keys|
  {
    if keys == [] then []
    else (if keys[0] in m then [m[keys[0]]] else []) + KnownIds(m, keys[1..])
  }

  /** The label ids of a task: the ids of the names that resolve, and nothing for
      the others. */
  function ResolveLabels(m: map<string, string>, names: seq<string>): seq<string> {
    KnownIds(m, LookupKeys(names))
  }

  /** The resolved ids are exactly the ids of the keys that resolve. */
  lemma {:induction false} KnownIdsMembers(m: map<string, string>, keys: seq<string>, id: string)
    ensures id in KnownIds(m, keys) <==> exists k :: k in keys && k in m && m[k] == id
  {
    if keys != [] {
      KnownIdsMembers(m, keys[1..], id);
      assert forall k :: k in keys <==> k == keys[0] || k in keys[1..];
    }
  }

  lemma ResolveLabelsMembers(m: map<string, string>, names: seq<string>, id: string)
    ensures id in ResolveLabels(m, names) <==> exists n :: n in names && LookupKey(n) in m && m[LookupKey(n)] == id
  {
    var keys := LookupKeys(names);
    KnownIdsMembers(m, keys, id);
    if k :| k in keys && k in m && m[k] == id {
      var i :| 0 <= i < |keys| && keys[i] == k;
      assert names[i] in names;
    }
    if n :| n in names && LookupKey(n) in m && m[LookupKey(n)] == id {
      var i :| 0 <= i < |names| && names[i] == n;
      assert keys[i] in keys;
    }
  }

  /** Keys resolve one by one, so the ids keep the order of the names. */
  lemma {:induction false} KnownIdsAppend(m: map<string, string>, a: seq<string>, b: seq<string>)
    ensures KnownIds(m, a + b) == KnownIds(m, a) + KnownIds(m, b)
  {
    if a == [] {
      assert a + b == b;
    } else {
      assert (a + b)[0] == a[0];
      assert (a + b)[1..] == a[1..] + b;
      KnownIdsAppend(m, a[1..], b);
    }
  }

  lemma ResolveLabelsAppend(m: map<string, string>, a: seq<string>, b: seq<string>)
    ensures ResolveLabels(m, a + b) == ResolveLabels(m, a) + ResolveLabels(m, b)
  {
    assert LookupKeys(a + b) == LookupKeys(a) + LookupKeys(b);
    KnownIdsAppend(m, LookupKeys(a), LookupKeys(b));
  }

  lemma LookupKeysAppend(a: seq<string>, b: seq<string>)
    ensures LookupKeys(a + b) == LookupKeys(a) + LookupKeys(b)
  {
    var l, r := LookupKeys(a + b), LookupKeys(a) + LookupKeys(b);
    forall i | 0 <= i < |l| ensures l[i] == r[i] {
      if i < |a| { assert (a + b)[i] == a[i]; } else { assert (a + b)[i] == b[i - |a|]; }
    }
  }

  /** An unknown key contributes no id. */
  lemma KnownIdsSkipsUnknown(m: map<string, string>, a: seq<string>, key: string, b: seq<string>)
    requires key !in m
    ensures KnownIds(m, a + [key] + b) == KnownIds(m, a + b)
  {
    KnownIdsAppend(m, a + [key], b);
    KnownIdsAppend(m, a, [key]);
    KnownIdsAppend(m, a, b);
    assert KnownIds(m, [key]) == [] by {
      assert [key][1..] == [];
    }
  }

  /** An unknown label name is dropped without a trace. */
  lemma UnknownLabelDropped(m: map<string, string>, before: seq<string>, name: string, after: seq<string>)
    requires LookupKey(name) !in m
    ensures ResolveLabels(m, before + [name] + after) == ResolveLabels(m, before + after)
  {
    LookupKeysAppend(before + [name], after);
    LookupKeysAppend(before, [name]);
    LookupKeysAppend(before, after);
    assert LookupKeys([name]) == [LookupKey(name)];
    KnownIdsSkipsUnknown(m, LookupKeys(before), LookupKey(name), LookupKeys(after));
  }

  lemma {:induction false} KnownIdsAllKnown(m: map<string, string>, keys: seq<string>)
    requires forall i :: 0 <= i < |keys| ==> keys[i] in m
    ensures |KnownIds(m, keys)| == |keys|
    ensures forall i :: 0 <= i < |keys| ==> KnownIds(m, keys)[i] == m[keys[i]]
  {
    if keys != [] {
      KnownIdsAllKnown(m, keys[1..]);
      var r := KnownIds(m, keys);
      assert r == [m[keys[0]]] + KnownIds(m, keys[1..]);
      forall i | 0 <= i < |keys| ensures r[i] == m[keys[i]] {
        if i > 0 { assert keys[1..][i - 1] == keys[i]; }
      }
    }
  }

  /** When every name resolves, there is one id per name, in order. */
  lemma ResolveLabelsAllKnown(m: map<string, string>, names: seq<string>)
    requires forall i :: 0 <= i < |names| ==> LookupKey(names[i]) in m
    ensures |ResolveLabels(m, names)| == |names|
    ensures forall i :: 0 <= i < |names| ==> ResolveLabels(m, names)[i] == m[LookupKey(names[i])]
  {
    KnownIdsAllKnown(m, LookupKeys(names));
  }

  /** The data `task.create` receives for a seed, given its creator's id and its
      parent's id. */
  function BuildTask(task: TaskSeed, lookups: Lookups, creatorId: string, parentId: Option<nat>): (r: TaskRow)
    ensures r.title == task.title && r.description == task.description
    ensures r.creatorId == creatorId && r.parentId == parentId
    ensures r.priorityId == ResolveOptional(lookups.priorityIdByName, task.priorityName)
    ensures r.statusId == ResolveOptional(lookups.statusIdByName, task.statusName)
    ensures r.projectId == ResolveOptional(lookups.projectIdByTitle, task.projectTitle)
    ensures r.labelIds.Some? <==> task.labelNames.Some?
    ensures r.labelIds.Some? ==> r.labelIds.value == ResolveLabels(lookups.labelIdByName, task.labelNames.value)
  {
    TaskRow(
      task.title, task.description, creatorId, parentId,
      ResolveOptional(lookups.priorityIdByName, task.priorityName),
      ResolveOptional(lookups.statusIdByName, task.statusName),
      ResolveOptional(lookups.projectIdByTitle, task.projectTitle),
      if task.labelNames.Some? then Some(ResolveLabels(lookups.labelIdByName, task.labelNames.value)) else None)
  }

  function CreatorMissing(task: TaskSeed): string {
    "Cannot seed task \"" + task.title + "\": user \"" + task.creatorEmail + "\" not found."
  }

  /** A task can be created once its parent, if it names one, has been. */
  predicate Ready(task: TaskSeed, taskIdByKey: map<string, nat>) {
    !Truthy(task.parentKey) || task.parentKey.value in taskIdByKey
  }

  /** What the loop does with the task at the head of the queue. */
  datatype Step = Throw(message: string) | Requeue | Insert(row: TaskRow)

  /** One turn of the loop: the creator is checked first, so a task with an unknown
      creator fails even while its parent is still missing; a task whose parent is
      missing goes back to the queue; any other task is created under its parent's
      recorded id. */
  function Decide(task: TaskSeed, lookups: Lookups, taskIdByKey: map<string, nat>): (r: Step)
    ensures r.Throw? <==> !Truthy(Get(lookups.userIdByEmail, task.creatorEmail))
    ensures r.Throw? ==> r.message == CreatorMissing(task)
    ensures r.Requeue? <==> Truthy(Get(lookups.userIdByEmail, task.creatorEmail)) && !Ready(task, taskIdByKey)
    ensures r.Insert? ==>
      r.row == BuildTask(task, lookups, Get(lookups.userIdByEmail, task.creatorEmail).value,
                         if Truthy(task.parentKey) then Some(taskIdByKey[task.parentKey.value]) else None)
  {
    var creatorId := Get(lookups.userIdByEmail, task.creatorEmail);
    if !Truthy(creatorId) then Throw(CreatorMissing(task))
    else if Truthy(task.parentKey) && task.parentKey.value !in taskIdByKey then Requeue
    else
      var parentId := if Truthy(task.parentKey) then Some(taskIdByKey[task.parentKey.value]) else None;
      Insert(BuildTask(task, lookups, creatorId.value, parentId))
  }

  /** Following parent keys from `task` reaches a task without a parent in at most
      `n` steps, where each step may go to any seed with the parent key: the loop
      accepts a parent created from whichever seed carries that key. */
  predicate GroundedWithin(seeds: seq<TaskSeed>, task: TaskSeed, n: nat)
    decreases n
  {
    || !Truthy(task.parentKey)
    || (n > 0 && exists j :: 0 <= j < |seeds| && seeds[j].key == task.parentKey.value
                            && GroundedWithin(seeds, seeds[j], n - 1))
  }

  /** Every seed's parent chain ends: each parent key names a seed, and the keys
      can be followed to a task without a parent without going round a cycle. */
  predicate ParentsGrounded(seeds: seq<TaskSeed>) {
    forall i :: 0 <= i < |seeds| ==> GroundedWithin(seeds, seeds[i], |seeds|)
  }

  /** Every parent key names an earlier seed. */
  predicate ParentsFirst(seeds: seq<TaskSeed>) {
    forall i :: 0 <= i < |seeds| && Truthy(seeds[i].parentKey) ==>
      exists j :: 0 <= j < i && seeds[j].key == seeds[i].parentKey.value
  }

  lemma {:induction false} GroundedMonotone(seeds: seq<TaskSeed>, task: TaskSeed, n: nat, m: nat)
    requires GroundedWithin(seeds, task, n) && n <= m
    ensures GroundedWithin(seeds, task, m)
    decreases n
  {
    if Truthy(task.parentKey) {
      var j :| 0 <= j < |seeds| && seeds[j].key == task.parentKey.value && GroundedWithin(seeds, seeds[j], n - 1);
      GroundedMonotone(seeds, seeds[j], n - 1, m - 1);
    }
  }

  lemma {:induction false} EarlierGrounded(seeds: seq<TaskSeed>, i: nat)
    requires ParentsFirst(seeds) && i < |seeds|
    ensures GroundedWithin(seeds, seeds[i], i + 1)
    decreases i
  {
    var task := seeds[i];
    if Truthy(task.parentKey) {
      var j :| 0 <= j < i && seeds[j].key == task.parentKey.value;
      EarlierGrounded(seeds, j);
      GroundedMonotone(seeds, seeds[j], j + 1, i);
    }
  }

  /** A seed list whose parents come before their children can be seeded. */
  lemma ParentsFirstGrounded(seeds: seq<TaskSeed>)
    requires ParentsFirst(seeds)
    ensures ParentsGrounded(seeds)
  {
    forall i | 0 <= i < |seeds| ensures GroundedWithin(seeds, seeds[i], |seeds|) {
      EarlierGrounded(seeds, i);
      GroundedMonotone(seeds, seeds[i], i + 1, |seeds|);
    }
  }

  function Indices(n: nat): (r: seq<nat>)
    ensures |r| == n && forall i :: 0 <= i < n ==> r[i] == i
  {
    seq(n, i requires 0 <= i < n => i)
  }

  lemma {:induction false} IndicesOnce(n: nat, k: nat)
    ensures multiset(Indices(n))[k] == if k < n then 1 else 0
  {
    if n > 0 {
      assert Indices(n) == Indices(n - 1) + [n - 1];
      IndicesOnce(n - 1, k);
    }
  }

  /** How many tasks the loop passes over before it reaches one it can create. */
  function FirstReady(pending: seq<TaskSeed>, taskIdByKey: map<string, nat>): nat {
    if pending == [] || Ready(pending[0], taskIdByKey) then 0
    else 1 + FirstReady(pending[1..], taskIdByKey)
  }

  lemma {:induction false} FirstReadyAppend(a: seq<TaskSeed>, b: seq<TaskSeed>, taskIdByKey: map<string, nat>)
    requires exists k :: 0 <= k < |a| && Ready(a[k], taskIdByKey)
    ensures FirstReady(a + b, taskIdByKey) == FirstReady(a, taskIdByKey)
  {
    assert (a + b)[0] == a[0];
    if !Ready(a[0], taskIdByKey) {
      var k :| 0 <= k < |a| && Ready(a[k], taskIdByKey);
      assert a[1..][k - 1] == a[k];
      assert (a + b)[1..] == a[1..] + b;
      FirstReadyAppend(a[1..], b, taskIdByKey);
    }
  }

  /** The queue as a list of seed positions. */
  ghost predicate Queue(seeds: seq<TaskSeed>, pending: seq<TaskSeed>, pendingIdx: seq<nat>) {
    |pending| == |pendingIdx| &&
    forall k :: 0 <= k < |pendingIdx| ==> pendingIdx[k] < |seeds| && pending[k] == seeds[pendingIdx[k]]
  }

  /** While some task is queued, one of the queued tasks can be created, provided
      every seed is queued or already recorded and parent chains are grounded. */
  lemma {:induction false} ReadyExists(
    seeds: seq<TaskSeed>, pending: seq<TaskSeed>, pendingIdx: seq<nat>,
    taskIdByKey: map<string, nat>, j: nat, n: nat)
    requires Queue(seeds, pending, pendingIdx)
    requires forall i :: 0 <= i < |seeds| ==> i in pendingIdx || seeds[i].key in taskIdByKey
    requires j in pendingIdx && GroundedWithin(seeds, seeds[j], n)
    ensures exists k :: 0 <= k < |pending| && Ready(pending[k], taskIdByKey)
    decreases n
  {
    var k :| 0 <= k < |pendingIdx| && pendingIdx[k] == j;
    if !Ready(pending[k], taskIdByKey) {
      var p :| 0 <= p < |seeds| && seeds[p].key == seeds[j].parentKey.value && GroundedWithin(seeds, seeds[p], n - 1);
      ReadyExists(seeds, pending, pendingIdx, taskIdByKey, p, n - 1);
    }
  }

  /** Task `i` of `created` was made from seed `order[i]`: its creator resolved, its
      fields are resolved from the seed, and its parent, if the seed names one, is
      the latest task created before it from a seed with that key, the one
      `taskIdByKey` held then. */
  ghost predicate CreatedFrom(
    seeds: seq<TaskSeed>, lookups: Lookups, order: seq<nat>, created: seq<TaskRow>, i: nat)
  {
    && i < |created| && i < |order| && order[i] < |seeds|
    && var task, row := seeds[order[i]], created[i];
    && Truthy(Get(lookups.userIdByEmail, task.creatorEmail))
    && row == BuildTask(task, lookups, Get(lookups.userIdByEmail, task.creatorEmail).value, row.parentId)
    && (Truthy(task.parentKey) ==>
          row.parentId.Some? && row.parentId.value < i && order[row.parentId.value] < |seeds| && seeds[order[row.parentId.value]].key == task.parentKey.value
          && (forall q :: row.parentId.value < q < i ==> order[q] < |seeds| && seeds[order[q]].key != task.parentKey.value))
    && (!Truthy(task.parentKey) ==> row.parentId.None?)
  }

  /** `taskIdByKey` holds the key of every created task, and maps each key to a
      created task made from a seed with that key. */
  ghost predicate Recorded(seeds: seq<TaskSeed>, order: seq<nat>, taskIdByKey: map<string, nat>)
    requires forall i :: 0 <= i < |order| ==> order[i] < |seeds|
  {
    && (forall k :: k in taskIdByKey ==> taskIdByKey[k] < |order| && seeds[order[taskIdByKey[k]]].key == k)
    && (forall i :: 0 <= i < |order| ==> seeds[order[i]].key in taskIdByKey)
  }

  /** No task created after the one `taskIdByKey` maps a key to has that key: the
      map holds the latest, since `set` overwrites. */
  ghost predicate Latest(seeds: seq<TaskSeed>, order: seq<nat>, taskIdByKey: map<string, nat>)
    requires forall i :: 0 <= i < |order| ==> order[i] < |seeds|
  {
    forall k, q :: k in taskIdByKey && taskIdByKey[k] < q < |order| ==> seeds[order[q]].key != k
  }

  /** Recording a newly created task under its key keeps `Latest`. */
  lemma LatestKeeps(seeds: seq<TaskSeed>, order: seq<nat>, taskIdByKey: map<string, nat>, j: nat)
    requires forall i :: 0 <= i < |order| ==> order[i] < |seeds|
    requires Latest(seeds, order, taskIdByKey) && j < |seeds|
    ensures Latest(seeds, order + [j], taskIdByKey[seeds[j].key := |order|])
  {
    var order', m := order + [j], taskIdByKey[seeds[j].key := |order|];
    forall k, q | k in m && m[k] < q < |order'| ensures seeds[order'[q]].key != k {
      if q < |order| { assert order'[q] == order[q]; }
    }
  }

  /** Creating the task `Decide` chose keeps what the loop knows about the created
      tasks. */
  lemma InsertKeeps(
    seeds: seq<TaskSeed>, lookups: Lookups, order: seq<nat>, created: seq<TaskRow>,
    taskIdByKey: map<string, nat>, j: nat, row: TaskRow)
    requires forall i :: 0 <= i < |order| ==> order[i] < |seeds|
    requires CreatedInvariant(seeds, lookups, order, created)
    requires Recorded(seeds, order, taskIdByKey) && Latest(seeds, order, taskIdByKey)
    requires j < |seeds| && Decide(seeds[j], lookups, taskIdByKey) == Insert(row)
    ensures CreatedInvariant(seeds, lookups, order + [j], created + [row])
  {
    var order', created' := order + [j], created + [row];
    forall i | 0 <= i < |created'| ensures CreatedFrom(seeds, lookups, order', created', i) {
      if i < |created| {
        assert CreatedFrom(seeds, lookups, order, created, i);
        assert order'[i] == order[i] && created'[i] == created[i];
        var p := created[i].parentId;
        if p.Some? && p.value < i {
          assert order'[p.value] == order[p.value];
        }
      } else {
        var task := seeds[j];
        if Truthy(task.parentKey) {
          var q := taskIdByKey[task.parentKey.value];
          assert order'[q] == order[q];
        }
      }
    }
  }

  /** Recording a newly created task under its key keeps `Recorded`. */
  lemma RecordKeeps(seeds: seq<TaskSeed>, order: seq<nat>, taskIdByKey: map<string, nat>, j: nat)
    requires forall i :: 0 <= i < |order| ==> order[i] < |seeds|
    requires Recorded(seeds, order, taskIdByKey)
    requires j < |seeds|
    ensures Recorded(seeds, order + [j], taskIdByKey[seeds[j].key := |order|])
  {
    var order', m := order + [j], taskIdByKey[seeds[j].key := |order|];
    forall k | k in m ensures m[k] < |order'| && seeds[order'[m[k]]].key == k {
      if k != seeds[j].key {
        assert order'[taskIdByKey[k]] == order[taskIdByKey[k]];
      }
    }
    forall i | 0 <= i < |order'| ensures seeds[order'[i]].key in m {
      if i < |order| { assert order'[i] == order[i]; }
    }
  }

  /** Taking the head of the queue and then creating it or queuing it again
      keeps every seed position either created or queued, once. */
  lemma {:induction false} QueueMove(seeds: seq<TaskSeed>, order: seq<nat>, pendingIdx: seq<nat>, j: nat, rest: seq<nat>)
    requires pendingIdx == [j] + rest
    requires forall k :: 0 <= k < |seeds| ==> multiset(order)[k] + multiset(pendingIdx)[k] == 1
    ensures forall k :: 0 <= k < |seeds| ==> multiset(order + [j])[k] + multiset(rest)[k] == 1
    ensures forall k :: 0 <= k < |seeds| ==> multiset(order)[k] + multiset(rest + [j])[k] == 1
  {
    assert multiset(pendingIdx) == multiset{j} + multiset(rest);
    assert multiset(order + [j]) == multiset(order) + multiset{j};
    assert multiset(rest + [j]) == multiset(rest) + multiset{j};
  }

  /** A run without failure has created every seed, so every creator resolved. */
  lemma AllCreatorsResolved(seeds: seq<TaskSeed>, lookups: Lookups, order: seq<nat>, created: seq<TaskRow>)
    requires |created| == |order|
    requires forall k :: 0 <= k < |seeds| ==> multiset(order)[k] == 1
    requires forall i :: 0 <= i < |created| ==> CreatedFrom(seeds, lookups, order, created, i)
    ensures forall t :: t in seeds ==> Truthy(Get(lookups.userIdByEmail, t.creatorEmail))
  {
    forall t | t in seeds ensures Truthy(Get(lookups.userIdByEmail, t.creatorEmail)) {
      var k :| 0 <= k < |seeds| && seeds[k] == t;
      assert multiset(order)[k] == 1;
      var i :| 0 <= i < |order| && order[i] == k;
      assert CreatedFrom(seeds, lookups, order, created, i);
    }
  }

  /** Every seed is still queued or already recorded under its key. */
  lemma Covered(seeds: seq<TaskSeed>, order: seq<nat>, pendingIdx: seq<nat>, taskIdByKey: map<string, nat>)
    requires forall i :: 0 <= i < |order| ==> order[i] < |seeds|
    requires forall k :: 0 <= k < |seeds| ==> multiset(order)[k] + multiset(pendingIdx)[k] == 1
    requires Recorded(seeds, order, taskIdByKey)
    ensures forall i :: 0 <= i < |seeds| ==> i in pendingIdx || seeds[i].key in taskIdByKey
  {
    forall i | 0 <= i < |seeds| ensures i in pendingIdx || seeds[i].key in taskIdByKey {
      if multiset(order)[i] > 0 {
        var p :| 0 <= p < |order| && order[p] == i;
      }
    }
  }

  /** What the loop of `SeedTasks` keeps about its queue: the queue and the
      created positions together hold every seed position once; the recorded keys
      are as `Recorded` says; and, on a grounded list, while the queue is not empty
      some queued task can be created. */
  ghost predicate QueueInvariant(
    seeds: seq<TaskSeed>, pending: seq<TaskSeed>, pendingIdx: seq<nat>,
    order: seq<nat>, taskIdByKey: map<string, nat>)
  {
    && Queue(seeds, pending, pendingIdx)
    && (forall i :: 0 <= i < |order| ==> order[i] < |seeds|)
    && (forall k :: 0 <= k < |seeds| ==> multiset(order)[k] + multiset(pendingIdx)[k] == 1)
    && |order| + |pendingIdx| == |seeds|
    && Recorded(seeds, order, taskIdByKey)
    && (ParentsGrounded(seeds) && pending != [] ==> exists k :: 0 <= k < |pending| && Ready(pending[k], taskIdByKey))
  }

  /** What the loop of `SeedTasks` keeps about the created tasks: task `i` was
      made from seed `order[i]` as `CreatedFrom` says. */
  ghost predicate CreatedInvariant(seeds: seq<TaskSeed>, lookups: Lookups, order: seq<nat>, created: seq<TaskRow>) {
    |created| == |order| && forall i :: 0 <= i < |created| ==> CreatedFrom(seeds, lookups, order, created, i)
  }

  /** While the queue is not empty, some queued task can be created. */
  lemma StillReady(
    seeds: seq<TaskSeed>, pending: seq<TaskSeed>, pendingIdx: seq<nat>,
    order: seq<nat>, taskIdByKey: map<string, nat>)
    requires ParentsGrounded(seeds) && Queue(seeds, pending, pendingIdx) && pending != []
    requires forall i :: 0 <= i < |order| ==> order[i] < |seeds|
    requires forall k :: 0 <= k < |seeds| ==> multiset(order)[k] + multiset(pendingIdx)[k] == 1
    requires Recorded(seeds, order, taskIdByKey)
    ensures exists k :: 0 <= k < |pending| && Ready(pending[k], taskIdByKey)
  {
    Covered(seeds, order, pendingIdx, taskIdByKey);
    ReadyExists(seeds, pending, pendingIdx, taskIdByKey, pendingIdx[0], |seeds|);
  }

  lemma LoopStart(seeds: seq<TaskSeed>, lookups: Lookups)
    ensures QueueInvariant(seeds, seeds, Indices(|seeds|), [], map[])
    ensures CreatedInvariant(seeds, lookups, [], [])
    ensures FirstPass(seeds, lookups, Indices(|seeds|), |seeds|)
  {
    forall k | 0 <= k < |seeds| ensures multiset(Indices(|seeds|))[k] == 1 {
      IndicesOnce(|seeds|, k);
    }
    if seeds != [] && ParentsGrounded(seeds) {
      StillReady(seeds, seeds, Indices(|seeds|), [], map[]);
    }
  }

  /** A task whose parent is missing goes to the back of the queue: the invariant
      holds, and on a grounded list the queue is one step closer to a task that
      can be created. */
  lemma RequeueStep(
    seeds: seq<TaskSeed>, pending: seq<TaskSeed>, pendingIdx: seq<nat>,
    order: seq<nat>, taskIdByKey: map<string, nat>)
    requires QueueInvariant(seeds, pending, pendingIdx, order, taskIdByKey)
    requires pending != [] && !Ready(pending[0], taskIdByKey)
    ensures QueueInvariant(seeds, pending[1..] + [pending[0]], pendingIdx[1..] + [pendingIdx[0]], order, taskIdByKey)
    ensures ParentsGrounded(seeds) ==>
      FirstReady(pending[1..] + [pending[0]], taskIdByKey) < FirstReady(pending, taskIdByKey)
  {
    var j, rest := pendingIdx[0], pendingIdx[1..];
    QueueMove(seeds, order, pendingIdx, j, rest);
    var pending', pendingIdx' := pending[1..] + [pending[0]], rest + [j];
    assert Queue(seeds, pending', pendingIdx');
    if ParentsGrounded(seeds) {
      var k :| 0 <= k < |pending| && Ready(pending[k], taskIdByKey);
      assert pending[1..][k - 1] == pending[k];
      FirstReadyAppend(pending[1..], [pending[0]], taskIdByKey);
      assert pending'[k - 1] == pending[k];
    }
  }

  /** Moving the head of the queue to the created positions keeps the queue a
      list of seed positions and the two lists together as long as the seeds. */
  lemma InsertQueue(seeds: seq<TaskSeed>, pending: seq<TaskSeed>, pendingIdx: seq<nat>, order: seq<nat>)
    requires Queue(seeds, pending, pendingIdx) && pending != []
    requires forall i :: 0 <= i < |order| ==> order[i] < |seeds|
    requires |order| + |pendingIdx| == |seeds|
    ensures pendingIdx[0] < |seeds| && seeds[pendingIdx[0]] == pending[0]
    ensures Queue(seeds, pending[1..], pendingIdx[1..])
    ensures forall i :: 0 <= i < |order| + 1 ==> (order + [pendingIdx[0]])[i] < |seeds|
    ensures |order + [pendingIdx[0]]| + |pendingIdx[1..]| == |seeds|
  {
    assert pending[0] == seeds[pendingIdx[0]];
  }

  /** Creating the head of the queue and recording it under its key keeps the
      queue invariant. */
  lemma InsertStep(
    seeds: seq<TaskSeed>, pending: seq<TaskSeed>, pendingIdx: seq<nat>,
    order: seq<nat>, taskIdByKey: map<string, nat>)
    requires QueueInvariant(seeds, pending, pendingIdx, order, taskIdByKey)
    requires pending != []
    ensures pendingIdx[0] < |seeds| && seeds[pendingIdx[0]] == pending[0]
    ensures QueueInvariant(seeds, pending[1..], pendingIdx[1..], order + [pendingIdx[0]],
                           taskIdByKey[pending[0].key := |order|])
  {
    var j, rest := pendingIdx[0], pendingIdx[1..];
    InsertQueue(seeds, pending, pendingIdx, order);
    QueueMove(seeds, order, pendingIdx, j, rest);
    RecordKeeps(seeds, order, taskIdByKey, j);
    var order', taskIdByKey' := order + [j], taskIdByKey[pending[0].key := |order|];
    if pending[1..] != [] && ParentsGrounded(seeds) {
      StillReady(seeds, pending[1..], rest, order', taskIdByKey');
    }
  }

  /** The head of the queue is one of the seeds, and no seed was created twice. */
  lemma HeadStep(
    seeds: seq<TaskSeed>, pending: seq<TaskSeed>, pendingIdx: seq<nat>,
    order: seq<nat>, taskIdByKey: map<string, nat>)
    requires QueueInvariant(seeds, pending, pendingIdx, order, taskIdByKey)
    requires pending != []
    ensures pending[0] in seeds && pendingIdx[0] < |seeds| && pending[0] == seeds[pendingIdx[0]]
    ensures forall k :: 0 <= k < |seeds| ==> multiset(order)[k] <= 1
  {
    assert pending[0] == seeds[pendingIdx[0]];
  }

  /** An empty queue means every seed was created once, so every creator resolved. */
  lemma LoopEnd(
    seeds: seq<TaskSeed>, lookups: Lookups, order: seq<nat>, created: seq<TaskRow>, taskIdByKey: map<string, nat>)
    requires QueueInvariant(seeds, [], [], order, taskIdByKey)
    requires CreatedInvariant(seeds, lookups, order, created)
    ensures forall k :: 0 <= k < |seeds| ==> multiset(order)[k] == 1
    ensures forall t :: t in seeds ==> Truthy(Get(lookups.userIdByEmail, t.creatorEmail))
  {
    AllCreatorsResolved(seeds, lookups, order, created);
  }

  /** The creator e-mail of `task` resolves to a user. */
  predicate CreatorKnown(lookups: Lookups, task: TaskSeed) {
    Truthy(Get(lookups.userIdByEmail, task.creatorEmail))
  }

  /** Seed `i` is the first one, in list order, whose creator does not resolve. */
  predicate FirstUnknownCreator(seeds: seq<TaskSeed>, lookups: Lookups, i: int) {
    && 0 <= i < |seeds| && !CreatorKnown(lookups, seeds[i])
    && forall k :: 0 <= k < i ==> CreatorKnown(lookups, seeds[k])
  }

  /** The first pass over the queue: its first `unseen` entries are still the seed
      positions the loop started with, in order, and every seed before them has
      been taken from the head without throwing, so its creator resolved. */
  ghost predicate FirstPass(seeds: seq<TaskSeed>, lookups: Lookups, pendingIdx: seq<nat>, unseen: nat) {
    && unseen <= |pendingIdx| && unseen <= |seeds|
    && (forall k :: 0 <= k < unseen ==> pendingIdx[k] == |seeds| - unseen + k)
    && (forall i :: 0 <= i < |seeds| - unseen ==> CreatorKnown(lookups, seeds[i]))
  }

  /** Taking a head whose creator resolved, and then creating it (`tail` empty) or
      queuing it again (`tail` the head), moves the first pass on by one seed. */
  lemma PassStep(seeds: seq<TaskSeed>, lookups: Lookups, pendingIdx: seq<nat>, unseen: nat, tail: seq<nat>)
    requires FirstPass(seeds, lookups, pendingIdx, unseen) && pendingIdx != [] && pendingIdx[0] < |seeds|
    requires CreatorKnown(lookups, seeds[pendingIdx[0]])
    ensures FirstPass(seeds, lookups, pendingIdx[1..] + tail, if unseen > 0 then unseen - 1 else 0)
  {
    var next := pendingIdx[1..] + tail;
    if unseen > 0 {
      assert pendingIdx[0] == |seeds| - unseen;
      forall k | 0 <= k < unseen - 1 ensures next[k] == |seeds| - (unseen - 1) + k {
        assert next[k] == pendingIdx[k + 1];
      }
    }
  }

  /** While some creator is unknown, the first pass has not ended. */
  lemma PassNotOver(seeds: seq<TaskSeed>, lookups: Lookups, pendingIdx: seq<nat>, unseen: nat)
    requires FirstPass(seeds, lookups, pendingIdx, unseen)
    requires exists i :: 0 <= i < |seeds| && !CreatorKnown(lookups, seeds[i])
    ensures unseen > 0
  {
    var i :| 0 <= i < |seeds| && !CreatorKnown(lookups, seeds[i]);
  }

  /** A head whose creator is unknown is met during the first pass, so it is the
      first seed with an unknown creator. */
  lemma ThrowIsFirst(seeds: seq<TaskSeed>, lookups: Lookups, pendingIdx: seq<nat>, unseen: nat)
    requires FirstPass(seeds, lookups, pendingIdx, unseen) && pendingIdx != [] && pendingIdx[0] < |seeds|
    requires !CreatorKnown(lookups, seeds[pendingIdx[0]])
    ensures FirstUnknownCreator(seeds, lookups, pendingIdx[0])
  {
  }

  /** Task `p` of a run is grounded within `p + 1` steps: its parent was created
      before it. */
  lemma {:induction false} CreatedGroundedWithin(
    seeds: seq<TaskSeed>, lookups: Lookups, order: seq<nat>, created: seq<TaskRow>, p: nat)
    requires CreatedInvariant(seeds, lookups, order, created) && p < |order|
    ensures order[p] < |seeds| && GroundedWithin(seeds, seeds[order[p]], p + 1)
    decreases p
  {
    assert CreatedFrom(seeds, lookups, order, created, p);
    var task := seeds[order[p]];
    if Truthy(task.parentKey) {
      var q := created[p].parentId.value;
      CreatedGroundedWithin(seeds, lookups, order, created, q);
      GroundedMonotone(seeds, seeds[order[q]], q + 1, p);
      assert seeds[order[q]].key == task.parentKey.value;
    }
  }

  /** The converse of termination: whatever order the loop creates tasks in, a
      run that creates every seed once shows the list is grounded. On any other
      list whose creators all resolve, the loop requeues forever. */
  lemma CompleteRunGrounded(seeds: seq<TaskSeed>, lookups: Lookups, order: seq<nat>, created: seq<TaskRow>)
    requires CreatedInvariant(seeds, lookups, order, created)
    requires |order| == |seeds| && forall k :: 0 <= k < |seeds| ==> multiset(order)[k] == 1
    ensures ParentsGrounded(seeds)
  {
    forall i | 0 <= i < |seeds| ensures GroundedWithin(seeds, seeds[i], |seeds|) {
      assert multiset(order)[i] == 1;
      var p :| 0 <= p < |order| && order[p] == i;
      CreatedGroundedWithin(seeds, lookups, order, created, p);
      GroundedMonotone(seeds, seeds[i], p + 1, |seeds|);
    }
  }

  /** The keys other seeds name as their parent. */
  const PLATFORM_LAUNCH := "platform-launch"
  const API_CHECKLIST := "api-checklist"
  const FRONTEND_QA := "frontend-qa"

  /** The seed list, without dates and estimates. */
  const TASKS: seq<TaskSeed> := [
    TaskSeed(PLATFORM_LAUNCH, "Platform launch", Some("Coordinate first public release of the task manager."), "admin@taskmanager.local",
             None, Some(["iMProVeMenT"]), Some("hIgH"), Some("in progress"), None),
    TaskSeed(API_CHECKLIST, "API readiness checklist", Some("Verify endpoints, auth, and error handling."), "jane.doe@taskmanager.local",
             Some(PLATFORM_LAUNCH), Some(["baCkEnd", "uRGenT"]), Some("CRITICAL"), Some("IN PROGRESS"), None),
    TaskSeed("api-docs", "Document API examples", Some("Create sample request/response docs for top endpoints."), "john.smith@taskmanager.local",
             Some(API_CHECKLIST), Some(["Backend", "Improvement"]), Some("Medium"), Some("Todo"), None),
    TaskSeed(FRONTEND_QA, "Frontend QA pass", Some("Run browser checks and verify task flows."), "jane.doe@taskmanager.local",
             Some(PLATFORM_LAUNCH), Some(["frONtEnd", "bUG"]), Some("hIGh"), Some("rEViEw"), None),
    TaskSeed("smoke-tests", "Smoke tests", Some("Automate and run basic smoke tests before release."), "admin@taskmanager.local",
             Some(FRONTEND_QA), Some(["Backend", "Frontend", "Bug"]), Some("Medium"), Some("Done"), None),
    TaskSeed("update-dependencies", "Update npm dependencies", Some("Review and update outdated packages."), "john.smith@taskmanager.local",
             None, None, None, Some("Done"), None),
    TaskSeed("design-review", "Design review meeting", None, "jane.doe@taskmanager.local",
             None, None, Some("Low"), None, None),
    TaskSeed("setup-ci", "Setup CI/CD pipeline", Some("Configure GitHub Actions for automated testing."), "admin@taskmanager.local",
             None, Some(["Backend", "Improvement"]), None, Some("In Progress"), None),
    TaskSeed("fix-login-bug", "Fix login redirect bug", None, "john.smith@taskmanager.local",
             None, Some(["Bug", "Urgent"]), Some("Critical"), Some("Blocked"), None),
    TaskSeed("research-offline", "Research offline mode", Some("Investigate options for offline task editing."), "jane.doe@taskmanager.local",
             None, None, None, None, None),
    TaskSeed("validate-endpoints", "Validate all endpoint inputs", Some("Add comprehensive input validation to all API endpoints."), "jane.doe@taskmanager.local",
             None, Some(["BACKEND"]), Some("HIGH"), Some("in progress"), Some("api hardening")),
    TaskSeed("refine-task-form", "Refine task creation form UX", Some("Improve form layout, validation messages, and accessibility."), "john.smith@taskmanager.local",
             None, Some(["FrOnTeNd", "IMPROVEMENT"]), Some("mEDiuM"), Some("in progress"), Some("frOntend polish")),
    TaskSeed("cross-browser-testing", "Cross-browser testing and fixes", Some("Verify and fix CSS/JS issues across Chrome, Firefox, Safari, Edge."), "john.smith@taskmanager.local",
             None, Some(["frontend", "BUG"]), Some("hIGh"), Some("tOdO"), Some("FRONTEND POLISH")),
    TaskSeed("dark-mode-support", "Add dark mode support", Some("Implement theme toggle and persist user preference."), "jane.doe@taskmanager.local",
             None, Some(["Frontend", "Improvement"]), Some("Low"), Some("Todo"), Some("Frontend polish"))
  ]

  /** The seed list's parent keys name earlier seeds and form no cycle, so
      `SeedTasks` may run on it. */
  lemma TasksGrounded()
    ensures ParentsFirst(TASKS) && ParentsGrounded(TASKS)
  {
    forall i | 0 <= i < |TASKS| && Truthy(TASKS[i].parentKey)
      ensures exists j :: 0 <= j < i && TASKS[j].key == TASKS[i].parentKey.value
    {
      if i == 1 || i == 3 { assert TASKS[0].key == TASKS[i].parentKey.value; }
      else if i == 2 { assert TASKS[1].key == TASKS[i].parentKey.value; }
      else if i == 4 { assert TASKS[3].key == TASKS[i].parentKey.value; }
    }
    ParentsFirstGrounded(TASKS);
  }

  /** `seedTasks` after the rows it reads have been turned into `lookups`. It ends
      on a grounded list, and on any list with an unknown creator, which it meets
      during its first pass. Without a failure every seed is created exactly once
      and after its parent; otherwise the first seed in list order whose creator
      is unknown throws, and the tasks created before it stay. */
  method SeedTasks(seeds: seq<TaskSeed>, lookups: Lookups)
    returns (created: seq<TaskRow>, taskIdByKey: map<string, nat>, failure: Option<string>, ghost order: seq<nat>)
    requires ParentsGrounded(seeds) || exists i :: 0 <= i < |seeds| && !CreatorKnown(lookups, seeds[i])
    ensures |created| == |order| && forall i :: 0 <= i < |order| ==> order[i] < |seeds|
    ensures forall i :: 0 <= i < |created| ==> CreatedFrom(seeds, lookups, order, created, i)
    ensures Recorded(seeds, order, taskIdByKey)
    ensures forall k :: 0 <= k < |seeds| ==> multiset(order)[k] <= 1
    ensures failure.None? ==> |order| == |seeds| && forall k :: 0 <= k < |seeds| ==> multiset(order)[k] == 1
    ensures failure.None? <==> forall t :: t in seeds ==> CreatorKnown(lookups, t)
    ensures failure.Some? ==>
      exists i :: FirstUnknownCreator(seeds, lookups, i) && failure.value == CreatorMissing(seeds[i])
  {
    var pending := seeds;
    ghost var pendingIdx: seq<nat> := Indices(|seeds|);
    ghost var unseen: nat := |seeds|;
    created, taskIdByKey, failure, order := [], map[], None, [];
    LoopStart(seeds, lookups);
    while pending != []
      invariant QueueInvariant(seeds, pending, pendingIdx, order, taskIdByKey)
      invariant CreatedInvariant(seeds, lookups, order, created)
      invariant forall i :: 0 <= i < |order| ==> order[i] < |seeds|
      invariant Latest(seeds, order, taskIdByKey)
      invariant FirstPass(seeds, lookups, pendingIdx, unseen)
      decreases if ParentsGrounded(seeds) then 0 else unseen, |pending|, FirstReady(pending, taskIdByKey)
    {
      var task := pending[0];
      ghost var j: nat := pendingIdx[0];
      HeadStep(seeds, pending, pendingIdx, order, taskIdByKey);
      if !ParentsGrounded(seeds) {
        PassNotOver(seeds, lookups, pendingIdx, unseen);
      }
      match Decide(task, lookups, taskIdByKey) {
        case Throw(message) =>
          ThrowIsFirst(seeds, lookups, pendingIdx, unseen);
          failure := Some(message);
          return;
        case Requeue =>
          RequeueStep(seeds, pending, pendingIdx, order, taskIdByKey);
          PassStep(seeds, lookups, pendingIdx, unseen, [j]);
          pending, pendingIdx := pending[1..] + [task], pendingIdx[1..] + [j];
          unseen := if unseen > 0 then unseen - 1 else 0;
        case Insert(row) =>
          InsertStep(seeds, pending, pendingIdx, order, taskIdByKey);
          InsertKeeps(seeds, lookups, order, created, taskIdByKey, j, row);
          LatestKeeps(seeds, order, taskIdByKey, j);
          PassStep(seeds, lookups, pendingIdx, unseen, []);
          assert pendingIdx[1..] + [] == pendingIdx[1..];
          pending, pendingIdx := pending[1..], pendingIdx[1..];
          created, order, taskIdByKey := created + [row], order + [j], taskIdByKey[task.key := |created|];
          unseen := if unseen > 0 then unseen - 1 else 0;
      }
    }
    LoopEnd(seeds, lookups, order, created, taskIdByKey);
  }
}
