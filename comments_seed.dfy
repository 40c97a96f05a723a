/**
 * The comment seeder: it empties the comment table, then for each entry checks
 * the creator, creates the comment row, and only then resolves and links the
 * task and the project the entry names. An unknown title therefore throws with
 * the row already written and unlinked, and an entry naming both a task and a
 * project gets both links.
 */
module CommentsSeed {
  import opened Wrappers
  import opened Text
  import opened Js
  import opened SeedLookup
  import opened CommentsService

  /** One entry of the seed list. */
  datatype CommentSeed = CommentSeed(
    content: string,
    creatorEmail: string,
    taskTitle: Option<string>,
    projectTitle: Option<string>)

  /** The maps built from the rows read before the loop. */
  datatype Lookups = Lookups(
    userIdByEmail: map<string, string>,
    taskIdByTitle: map<string, string>,
    projectIdByTitle: map<string, string>)

  /** Users are looked up by exact e-mail, tasks and projects by the lookup key of
      their title. */
  function BuildLookups(users: seq<NamedRow>, tasks: seq<NamedRow>, projects: seq<NamedRow>): Lookups {
    Lookups(ExactIndex(users), KeyIndex(tasks), KeyIndex(projects))
  }

  /** The ids in the maps are ids of rows of the store. */
  ghost predicate LookupsInStore(db: Database, lookups: Lookups)
    reads db
  {
    && (forall e :: e in lookups.userIdByEmail ==> lookups.userIdByEmail[e] in db.users)
    && (forall k :: k in lookups.taskIdByTitle ==> lookups.taskIdByTitle[k] in db.tasks)
    && (forall k :: k in lookups.projectIdByTitle ==> lookups.projectIdByTitle[k] in db.projects)
  }

  function CreatorMissing(c: CommentSeed): string {
    "Cannot seed comment: user \"" + c.creatorEmail + "\" not found."
  }

  function TaskMissing(title: string): string {
    "Cannot seed comment: task \"" + title + "\" not found."
  }

  function ProjectMissing(title: string): string {
    "Cannot seed comment: project \"" + title + "\" not found."
  }

  /** What one entry writes: the creator of the comment row, if the row is
      created; the task and the project it is linked to; and the error it throws,
      if any. */
  datatype EntryWrites = EntryWrites(
    creatorId: Option<string>,
    taskId: Option<string>,
    projectId: Option<string>,
    failure: Option<string>)

  /** One turn of the loop. */
  function Writes(c: CommentSeed, lookups: Lookups): (w: EntryWrites)
    // the row is created exactly when the creator is known, and then by that creator
    ensures w.creatorId.Some? <==> Truthy(Get(lookups.userIdByEmail, c.creatorEmail))
    ensures w.creatorId.Some? ==> w.creatorId.value == lookups.userIdByEmail[c.creatorEmail]
    ensures w.creatorId.None? ==> w.taskId.None? && w.projectId.None? && w.failure == Some(CreatorMissing(c))
    // links go to the ids the titles resolve to
    ensures w.taskId.Some? ==> Truthy(c.taskTitle) && w.taskId == Find(lookups.taskIdByTitle, c.taskTitle.value)
    ensures w.projectId.Some? ==> Truthy(c.projectTitle) && w.projectId == Find(lookups.projectIdByTitle, c.projectTitle.value)
    // an unknown task title throws with the row written and unlinked
    ensures w.creatorId.Some? && Truthy(c.taskTitle) && !Truthy(Find(lookups.taskIdByTitle, c.taskTitle.value)) ==>
      w.taskId.None? && w.projectId.None? && w.failure == Some(TaskMissing(c.taskTitle.value))
    // an unknown project title throws after the task link, if any, is written
    ensures (&& w.creatorId.Some?
             && (Truthy(c.taskTitle) ==> Truthy(Find(lookups.taskIdByTitle, c.taskTitle.value)))
             && Truthy(c.projectTitle) && !Truthy(Find(lookups.projectIdByTitle, c.projectTitle.value)))
      ==> && (w.taskId.Some? <==> Truthy(c.taskTitle)) && w.projectId.None?
          && w.failure == Some(ProjectMissing(c.projectTitle.value))
    // without an error: a task link iff a task title, a project link iff a project title
    ensures w.failure.None? <==>
      && Truthy(Get(lookups.userIdByEmail, c.creatorEmail))
      && (Truthy(c.taskTitle) ==> Truthy(Find(lookups.taskIdByTitle, c.taskTitle.value)))
      && (Truthy(c.projectTitle) ==> Truthy(Find(lookups.projectIdByTitle, c.projectTitle.value)))
    ensures w.failure.None? ==>
      (w.taskId.Some? <==> Truthy(c.taskTitle)) && (w.projectId.Some? <==> Truthy(c.projectTitle))
  {
    var creatorId := Get(lookups.userIdByEmail, c.creatorEmail);
    if !Truthy(creatorId) then EntryWrites(None, None, None, Some(CreatorMissing(c)))
    else
      var taskId := if Truthy(c.taskTitle) then Find(lookups.taskIdByTitle, c.taskTitle.value) else None;
      if Truthy(c.taskTitle) && !Truthy(taskId) then EntryWrites(creatorId, None, None, Some(TaskMissing(c.taskTitle.value)))
      else
        var projectId := if Truthy(c.projectTitle) then Find(lookups.projectIdByTitle, c.projectTitle.value) else None;
        if Truthy(c.projectTitle) && !Truthy(projectId) then
          EntryWrites(creatorId, taskId, None, Some(ProjectMissing(c.projectTitle.value)))
        else
          EntryWrites(creatorId, taskId, projectId, None)
  }

  /** The comment rows the entries write, the row of entry `k` under id `base + k`. */
  function RowsFor(seeds: seq<CommentSeed>, lookups: Lookups, base: CommentId): map<CommentId, CommentRow> {
    if seeds == [] then map[]
    else
      var n := |seeds| - 1;
      var w := Writes(seeds[n], lookups);
      var earlier := RowsFor(seeds[..n], lookups, base);
      if w.creatorId.Some? then earlier[base + n := CommentRow(seeds[n].content, w.creatorId.value)] else earlier
  }

  /** The link rows of one join table: the target of entry `k`, when it has one,
      linked to comment `base + k`, in entry order. */
  function LinksOf(targets: seq<Option<string>>, base: CommentId): seq<Link> {
    if targets == [] then []
    else
      var n := |targets| - 1;
      LinksOf(targets[..n], base) + (if targets[n].Some? then [Link(base + n, targets[n].value)] else [])
  }

  /** The task each entry links its comment to. */
  function TaskTargets(seeds: seq<CommentSeed>, lookups: Lookups): seq<Option<string>> {
    seq(|seeds|, k requires 0 <= k < |seeds| => Writes(seeds[k], lookups).taskId)
  }

  /** The project each entry links its comment to. */
  function ProjectTargets(seeds: seq<CommentSeed>, lookups: Lookups): seq<Option<string>> {
    seq(|seeds|, k requires 0 <= k < |seeds| => Writes(seeds[k], lookups).projectId)
  }

  /** The `commentTask` rows the entries write, in order. */
  function TaskLinksFor(seeds: seq<CommentSeed>, lookups: Lookups, base: CommentId): seq<Link> {
    LinksOf(TaskTargets(seeds, lookups), base)
  }

  /** The `commentProject` rows the entries write, in order. */
  function ProjectLinksFor(seeds: seq<CommentSeed>, lookups: Lookups, base: CommentId): seq<Link> {
    LinksOf(ProjectTargets(seeds, lookups), base)
  }

  /** Writing one more entry extends the rows and the links by what it writes. */
  lemma NextEntry(seeds: seq<CommentSeed>, lookups: Lookups, base: CommentId, p: nat, id: CommentId,
                  rows: map<CommentId, CommentRow>, taskLinks: seq<Link>, projectLinks: seq<Link>,
                  rows': map<CommentId, CommentRow>, taskLinks': seq<Link>, projectLinks': seq<Link>)
    requires p < |seeds| && id == base + p
    requires rows == RowsFor(seeds[..p], lookups, base)
    requires taskLinks == TaskLinksFor(seeds[..p], lookups, base)
    requires projectLinks == ProjectLinksFor(seeds[..p], lookups, base)
    requires var w := Writes(seeds[p], lookups);
      && rows' == (if w.creatorId.Some? then rows[id := CommentRow(seeds[p].content, w.creatorId.value)] else rows)
      && taskLinks' == taskLinks + (if w.taskId.Some? then [Link(id, w.taskId.value)] else [])
      && projectLinks' == projectLinks + (if w.projectId.Some? then [Link(id, w.projectId.value)] else [])
    ensures rows' == RowsFor(seeds[..p + 1], lookups, base)
    ensures taskLinks' == TaskLinksFor(seeds[..p + 1], lookups, base)
    ensures projectLinks' == ProjectLinksFor(seeds[..p + 1], lookups, base)
  {
    assert seeds[..p + 1][..p] == seeds[..p];
    assert seeds[..p + 1][p] == seeds[p];
    var tasks, projects := TaskTargets(seeds[..p + 1], lookups), ProjectTargets(seeds[..p + 1], lookups);
    assert tasks[..p] == TaskTargets(seeds[..p], lookups);
    assert projects[..p] == ProjectTargets(seeds[..p], lookups);
  }

  /** Comment `id` has a link in a table built by `LinksOf` exactly when it is
      the comment of an entry that has a target there. */
  lemma {:induction false} LinksOfCount(targets: seq<Option<string>>, base: CommentId, id: CommentId)
    ensures |TargetsOf(LinksOf(targets, base), id)| ==
      if base <= id < base + |targets| && targets[id - base].Some? then 1 else 0
  {
    if targets != [] {
      var n := |targets| - 1;
      var init := targets[..n];
      var last := if targets[n].Some? then [Link(base + n, targets[n].value)] else [];
      LinksOfCount(init, base, id);
      TargetsOfAppend(LinksOf(init, base), last, id);
      if last != [] { OneLinkTargets(last[0], id); }
      if base <= id < base + n { assert init[id - base] == targets[id - base]; }
    }
  }

  /** How many targets the seeded comment `id` has: one per title its entry names,
      when every entry went through. */
  lemma SeededTargetCount(seeds: seq<CommentSeed>, lookups: Lookups, base: CommentId, id: CommentId)
    requires forall k :: 0 <= k < |seeds| ==> Writes(seeds[k], lookups).failure.None?
    ensures TargetCount(TaskLinksFor(seeds, lookups, base), ProjectLinksFor(seeds, lookups, base), id) ==
      if base <= id < base + |seeds|
      then (if Truthy(seeds[id - base].taskTitle) then 1 else 0) + (if Truthy(seeds[id - base].projectTitle) then 1 else 0)
      else 0
  {
    LinksOfCount(TaskTargets(seeds, lookups), base, id);
    LinksOfCount(ProjectTargets(seeds, lookups), base, id);
  }

  /** Entries that each name exactly one target and all go through leave every
      seeded comment with exactly one target, although the seeder itself does not
      enforce it. */
  lemma SingleTargetEntries(seeds: seq<CommentSeed>, lookups: Lookups, base: CommentId)
    requires forall k :: 0 <= k < |seeds| ==> Writes(seeds[k], lookups).failure.None?
    requires forall k :: 0 <= k < |seeds| ==> Truthy(seeds[k].taskTitle) != Truthy(seeds[k].projectTitle)
    ensures forall id :: base <= id < base + |seeds| ==>
      TargetCount(TaskLinksFor(seeds, lookups, base), ProjectLinksFor(seeds, lookups, base), id) == 1
  {
    forall id | base <= id < base + |seeds|
      ensures TargetCount(TaskLinksFor(seeds, lookups, base), ProjectLinksFor(seeds, lookups, base), id) == 1
    {
      SeededTargetCount(seeds, lookups, base, id);
    }
  }

  /** An entry naming both a task and a project that both resolve gets two links. */
  lemma BothTitlesBothLinks(seeds: seq<CommentSeed>, lookups: Lookups, base: CommentId, k: nat)
    requires forall j :: 0 <= j < |seeds| ==> Writes(seeds[j], lookups).failure.None?
    requires k < |seeds| && Truthy(seeds[k].taskTitle) && Truthy(seeds[k].projectTitle)
    ensures TargetCount(TaskLinksFor(seeds, lookups, base), ProjectLinksFor(seeds, lookups, base), base + k) == 2
  {
    SeededTargetCount(seeds, lookups, base, base + k);
  }

  /** The seed list. */
  const COMMENTS: seq<CommentSeed> := [
    CommentSeed("Started working on this task. Will provide updates soon.", "admin@taskmanager.local",
                Some("Platform launch"), None),
    CommentSeed("Reviewed the initial design. Looks good overall.", "jane.doe@taskmanager.local",
                None, Some("Platform launch")),
    CommentSeed("Added some additional notes for the team.", "john.smith@taskmanager.local",
                None, Some("Platform launch"))
  ]

  /** Every entry of the seed list names exactly one target. */
  lemma CommentsNameOneTarget()
    ensures forall k :: 0 <= k < |COMMENTS| ==> Truthy(COMMENTS[k].taskTitle) != Truthy(COMMENTS[k].projectTitle)
  {
    assert Truthy(COMMENTS[0].taskTitle) && !Truthy(COMMENTS[0].projectTitle);
    assert !Truthy(COMMENTS[1].taskTitle) && Truthy(COMMENTS[1].projectTitle);
    assert !Truthy(COMMENTS[2].taskTitle) && Truthy(COMMENTS[2].projectTitle);
  }

  /** One turn of `seedComments`' loop, on the store: the creator check, the row,
      then the task link and the project link. */
  method SeedEntry(db: Database, c: CommentSeed, lookups: Lookups) returns (failure: Option<string>)
    requires db.Valid() && LookupsInStore(db, lookups)
    modifies db
    ensures db.Valid() && LookupsInStore(db, lookups)
    ensures db.users == old(db.users) && db.tasks == old(db.tasks) && db.projects == old(db.projects)
    ensures failure == Writes(c, lookups).failure
    ensures var w := Writes(c, lookups);
      && db.comments == (if w.creatorId.Some? then old(db.comments)[old(db.nextId) := CommentRow(c.content, w.creatorId.value)] else old(db.comments))
      && db.taskLinks == old(db.taskLinks) + (if w.taskId.Some? then [Link(old(db.nextId), w.taskId.value)] else [])
      && db.projectLinks == old(db.projectLinks) + (if w.projectId.Some? then [Link(old(db.nextId), w.projectId.value)] else [])
      && db.nextId == old(db.nextId) + (if w.creatorId.Some? then 1 else 0)
  {
    var creatorId := Get(lookups.userIdByEmail, c.creatorEmail);
    if !Truthy(creatorId) {
      return Some(CreatorMissing(c));
    }
    var id := db.InsertComment(c.content, creatorId.value);
    if Truthy(c.taskTitle) {
      var taskId := Find(lookups.taskIdByTitle, c.taskTitle.value);
      if !Truthy(taskId) {
        return Some(TaskMissing(c.taskTitle.value));
      }
      db.CreateTaskLink(id, taskId.value);
    }
    if Truthy(c.projectTitle) {
      var projectId := Find(lookups.projectIdByTitle, c.projectTitle.value);
      if !Truthy(projectId) {
        return Some(ProjectMissing(c.projectTitle.value));
      }
      db.CreateProjectLink(id, projectId.value);
    }
    failure := None;
  }

  /** `seedComments` after the rows it reads have been turned into `lookups`: the
      comment table is emptied, then the entries are written in order until one
      throws. `processed` counts the entries the loop reached, the one that threw
      included. */
  method SeedComments(db: Database, seeds: seq<CommentSeed>, lookups: Lookups)
    returns (failure: Option<string>, processed: nat)
    requires db.Valid() && LookupsInStore(db, lookups)
    modifies db
    ensures db.Valid()
    ensures db.users == old(db.users) && db.tasks == old(db.tasks) && db.projects == old(db.projects)
    ensures processed <= |seeds|
    ensures db.comments == RowsFor(seeds[..processed], lookups, old(db.nextId))
    ensures db.taskLinks == TaskLinksFor(seeds[..processed], lookups, old(db.nextId))
    ensures db.projectLinks == ProjectLinksFor(seeds[..processed], lookups, old(db.nextId))
    ensures failure.None? <==> forall k :: 0 <= k < |seeds| ==> Writes(seeds[k], lookups).failure.None?
    ensures failure.None? ==> processed == |seeds| && db.nextId == old(db.nextId) + |seeds|
    ensures failure.Some? ==>
      && 0 < processed
      && (forall k :: 0 <= k < processed - 1 ==> Writes(seeds[k], lookups).failure.None?)
      && failure == Writes(seeds[processed - 1], lookups).failure
  {
    ghost var base := db.nextId;
    db.DeleteAllComments();
    failure, processed := None, 0;
    while processed < |seeds|
      invariant processed <= |seeds| && failure.None?
      invariant db.Valid() && LookupsInStore(db, lookups)
      invariant db.users == old(db.users) && db.tasks == old(db.tasks) && db.projects == old(db.projects)
      invariant db.nextId == base + processed
      invariant db.comments == RowsFor(seeds[..processed], lookups, base)
      invariant db.taskLinks == TaskLinksFor(seeds[..processed], lookups, base)
      invariant db.projectLinks == ProjectLinksFor(seeds[..processed], lookups, base)
      invariant forall k :: 0 <= k < processed ==> Writes(seeds[k], lookups).failure.None?
    {
      var c := seeds[processed];
      ghost var id, rows, taskLinks, projectLinks := db.nextId, db.comments, db.taskLinks, db.projectLinks;
      failure := SeedEntry(db, c, lookups);
      NextEntry(seeds, lookups, base, processed, id, rows, taskLinks, projectLinks, db.comments, db.taskLinks, db.projectLinks);
      processed := processed + 1;
      if failure.Some? {
        assert seeds[processed - 1] == c;
        return;
      }
      assert forall k :: 0 <= k < processed - 1 ==> Writes(seeds[k], lookups).failure.None?;
      assert Writes(seeds[processed - 1], lookups).failure.None?;
    }
    assert seeds[..processed] == seeds;
  }
}
