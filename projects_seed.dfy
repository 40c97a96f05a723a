/**
 * The project seeder: one project per seed entry, in order. Unlike the task
 * seeder, a priority, status or label name that does not resolve stops the
 * run with an error; a priority or status that is not named at all is left
 * unset.
 *
 * The store writes are the rows appended to `created`.
 */
module ProjectsSeed {
  import opened Wrappers
  import opened Text
  import opened Js
  import opened SeedLookup

  /** One entry of the seed list; dates are not modelled. */
  datatype ProjectSeed = ProjectSeed(
    title: string,
    description: Option<string>,
    creatorEmail: string,
    priorityName: Option<string>,
    statusName: Option<string>,
    labelNames: Option<seq<string>>)

  /** The data of one `project.create`; `labelIds` is `None` when no `labelLinks`
      are written at all. */
  datatype ProjectRow = ProjectRow(
    title: string,
    description: Option<string>,
    creatorId: string,
    priorityId: Option<string>,
    statusId: Option<string>,
    labelIds: Option<seq<string>>)

  /** The maps built from the rows read before the loop. */
  datatype Lookups = Lookups(
    userIdByEmail: map<string, string>,
    priorityIdByName: map<string, string>,
    statusIdByName: map<string, string>,
    labelIdByName: map<string, string>)

  /** Users are looked up by exact e-mail, everything else by lookup key. */
  function BuildLookups(users: seq<NamedRow>, priorities: seq<NamedRow>, statuses: seq<NamedRow>, labels: seq<NamedRow>): Lookups {
    Lookups(ExactIndex(users), KeyIndex(priorities), KeyIndex(statuses), KeyIndex(labels))
  }

  /** A value, or the message of the error that was thrown instead. */
  datatype Outcome<T> = Ok(value: T) | Thrown(message: string)

  /** How an optional name resolves: not named, found, or named but missing. */
  datatype Resolved = Absent | Found(id: string) | Missing

  /** `name ? map.get(toLookupKey(name)) : undefined`, where a falsy result for a
      truthy name is an error. */
  function ResolveNamed(m: map<string, string>, name: Option<string>): (r: Resolved)
    ensures r.Absent? <==> !Truthy(name)
    ensures r.Found? <==> Truthy(name) && Truthy(Find(m, name.value))
    ensures r.Found? ==> r.id != "" && r.id == m[LookupKey(name.value)]
  {
    if !Truthy(name) then Absent
    else
      var id := Find(m, name.value);
      if Truthy(id) then Found(id.value) else Missing
  }

  /** The id a resolved name contributes to the row: unset unless it was found. */
  function IdOf(r: Resolved): Option<string> {
    if r.Found? then Some(r.id) else None
  }

  function CreatorMissing(p: ProjectSeed): string {
    "Cannot seed project \"" + p.title + "\": user \"" + p.creatorEmail + "\" not found."
  }

  function PriorityMissing(p: ProjectSeed): string
    requires p.priorityName.Some?
  {
    "Cannot seed project \"" + p.title + "\": priority \"" + p.priorityName.value + "\" not found."
  }

  function StatusMissing(p: ProjectSeed): string
    requires p.statusName.Some?
  {
    "Cannot seed project \"" + p.title + "\": status \"" + p.statusName.value + "\" not found."
  }

  function LabelMissing(title: string, name: string): string {
    "Cannot seed project \"" + title + "\": label \"" + name + "\" not found."
  }

  /** Whether a label name resolves to a usable id. */
  predicate LabelKnown(m: map<string, string>, name: string) {
    Truthy(Find(m, name))
  }

  /** `labelNames.map(...)`: every name must resolve, in order; the first one that
      does not throws, naming it as written. */
  function ResolveLabelIds(m: map<string, string>, names: seq<string>, title: string): (r: Outcome<seq<string>>)
    ensures r.Ok? <==> forall i :: 0 <= i < |names| ==> LabelKnown(m, names[i])
    ensures r.Ok? ==>
      |r.value| == |names| && forall i :: 0 <= i < |names| ==> r.value[i] == m[LookupKey(names[i])]
    ensures r.Thrown? ==>
      exists i :: 0 <= i < |names| && !LabelKnown(m, names[i])
        && (forall j :: 0 <= j < i ==> LabelKnown(m, names[j])) && r.message == LabelMissing(title, names[i])
  {
    if names == [] then Ok([])
    else
      var id := Find(m, names[0]);
      if !Truthy(id) then Thrown(LabelMissing(title, names[0]))
      else
        match ResolveLabelIds(m, names[1..], title)
        case Thrown(message) =>
          var r: Outcome<seq<string>> := Thrown(message);
          assert forall i :: 1 <= i < |names| ==> names[1..][i - 1] == names[i];
          r
        case Ok(ids) =>
          assert forall i :: 1 <= i < |names| ==> names[1..][i - 1] == names[i];
          Ok([id.value] + ids)
  }

  /** One turn of the loop: the creator first, then the priority, the status and
      the labels, each failure throwing; otherwise the row `project.create`
      receives. */
  function ResolveProject(p: ProjectSeed, lookups: Lookups): (r: Outcome<ProjectRow>)
    // the creator is checked first
    ensures !Truthy(Get(lookups.userIdByEmail, p.creatorEmail)) ==> r == Thrown(CreatorMissing(p))
    // then the priority, when one is named
    ensures (Truthy(Get(lookups.userIdByEmail, p.creatorEmail))
             && ResolveNamed(lookups.priorityIdByName, p.priorityName).Missing?)
      ==> r == Thrown(PriorityMissing(p))
    // then the status, when one is named
    ensures (Truthy(Get(lookups.userIdByEmail, p.creatorEmail))
             && !ResolveNamed(lookups.priorityIdByName, p.priorityName).Missing?
             && ResolveNamed(lookups.statusIdByName, p.statusName).Missing?)
      ==> r == Thrown(StatusMissing(p))
    // then the labels, throwing for the first name that does not resolve
    ensures (Truthy(Get(lookups.userIdByEmail, p.creatorEmail))
             && !ResolveNamed(lookups.priorityIdByName, p.priorityName).Missing?
             && !ResolveNamed(lookups.statusIdByName, p.statusName).Missing?
             && p.labelNames.Some? && ResolveLabelIds(lookups.labelIdByName, p.labelNames.value, p.title).Thrown?)
      ==> r == Thrown(ResolveLabelIds(lookups.labelIdByName, p.labelNames.value, p.title).message)
    ensures r.Ok? <==>
      && Truthy(Get(lookups.userIdByEmail, p.creatorEmail))
      && !ResolveNamed(lookups.priorityIdByName, p.priorityName).Missing?
      && !ResolveNamed(lookups.statusIdByName, p.statusName).Missing?
      && (p.labelNames.Some? ==> forall i :: 0 <= i < |p.labelNames.value| ==> LabelKnown(lookups.labelIdByName, p.labelNames.value[i]))
    ensures r.Ok? ==>
      && r.value.title == p.title && r.value.description == p.description
      && r.value.creatorId == Get(lookups.userIdByEmail, p.creatorEmail).value
      // an unnamed priority or status is left unset
      && (r.value.priorityId.Some? <==> Truthy(p.priorityName))
      && (r.value.priorityId.Some? ==> r.value.priorityId.value == lookups.priorityIdByName[LookupKey(p.priorityName.value)])
      && (r.value.statusId.Some? <==> Truthy(p.statusName))
      && (r.value.statusId.Some? ==> r.value.statusId.value == lookups.statusIdByName[LookupKey(p.statusName.value)])
      // label links are written only when there is at least one label, one per name, in order
      && (r.value.labelIds.Some? <==> p.labelNames.Some? && p.labelNames.value != [])
      && (r.value.labelIds.Some? ==>
            && |r.value.labelIds.value| == |p.labelNames.value|
            && forall i :: 0 <= i < |p.labelNames.value| ==>
                 r.value.labelIds.value[i] == lookups.labelIdByName[LookupKey(p.labelNames.value[i])])
  {
    var creatorId := Get(lookups.userIdByEmail, p.creatorEmail);
    if !Truthy(creatorId) then Thrown(CreatorMissing(p))
    else
      var priority := ResolveNamed(lookups.priorityIdByName, p.priorityName);
      if priority.Missing? then Thrown(PriorityMissing(p))
      else
        var status := ResolveNamed(lookups.statusIdByName, p.statusName);
        if status.Missing? then Thrown(StatusMissing(p))
        else
          var labels := if p.labelNames.Some? then ResolveLabelIds(lookups.labelIdByName, p.labelNames.value, p.title) else Ok([]);
          match labels
          case Thrown(message) => Thrown(message)
          case Ok(labelIds) =>
            Ok(ProjectRow(p.title, p.description, creatorId.value, IdOf(priority), IdOf(status),
                          if |labelIds| > 0 then Some(labelIds) else None))
  }

  /** A label name that does not resolve fails the whole project, where the task
      seeder would drop it. */
  lemma UnknownLabelThrows(m: map<string, string>, before: seq<string>, name: string, after: seq<string>, title: string)
    requires LookupKey(name) !in m
    ensures ResolveLabelIds(m, before + [name] + after, title).Thrown?
  {
    var names := before + [name] + after;
    assert names[|before|] == name;
    assert !LabelKnown(m, names[|before|]);
  }

  /** Priority and status names resolve the same whatever their letter case. */
  lemma ResolveNamedIgnoresCase(m: map<string, string>, a: string, b: string)
    requires ToLower(a) == ToLower(b)
    ensures ResolveNamed(m, Some(a)).Found? <==> (b != "" && ResolveNamed(m, Some(b)).Found?)
    ensures ResolveNamed(m, Some(a)).Found? ==> ResolveNamed(m, Some(a)) == ResolveNamed(m, Some(b))
  {
    FindIgnoresCase(m, a, b);
    assert |a| == |ToLower(a)| == |ToLower(b)| == |b|;
  }

  /** `for (const project of PROJECTS)`: one project per entry, in order, until an
      entry throws; the projects created before it stay. */
  method SeedProjects(seeds: seq<ProjectSeed>, lookups: Lookups) returns (created: seq<ProjectRow>, failure: Option<string>)
    ensures failure.None? <==> forall i :: 0 <= i < |seeds| ==> ResolveProject(seeds[i], lookups).Ok?
    ensures failure.None? ==> |created| == |seeds|
    ensures failure.Some? ==> |created| < |seeds| && ResolveProject(seeds[|created|], lookups) == Thrown(failure.value)
    ensures forall i :: 0 <= i < |created| ==> ResolveProject(seeds[i], lookups) == Ok(created[i])
  {
    created, failure := [], None;
    for n := 0 to |seeds|
      invariant |created| == n
      invariant forall i :: 0 <= i < n ==> ResolveProject(seeds[i], lookups) == Ok(created[i])
    {
      match ResolveProject(seeds[n], lookups) {
        case Thrown(message) =>
          failure := Some(message);
          return;
        case Ok(row) =>
          created := created + [row];
      }
    }
  }
}
