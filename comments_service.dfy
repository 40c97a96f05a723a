/**
 * The comment service: a comment is attached to a task or to a project through
 * one of two join tables, `commentTask` and `commentProject`, and the service's
 * create, update and delete keep every comment attached to exactly one target.
 *
 * The relational store is the class `Database`; each of its mutating methods is
 * one atomic store call, and `UpdateTransaction` / `DeleteTransaction` are the
 * two `$transaction` bodies. The service's operations are the module-level
 * methods `Create`, `Update`, `Delete`, `GetById`, `GetByTaskId` and
 * `GetByProjectId`, which receive the store explicitly.
 */
module CommentsService {
  import opened Wrappers
  import opened Text
  import opened Js
  import opened Api

  /** Comment ids are handed out by the store in increasing order. */
  type CommentId = nat

  datatype CommentRow = CommentRow(content: string, creatorId: string)

  /** A row `(commentId, taskId)` of `commentTask` or `(commentId, projectId)` of
      `commentProject`. */
  datatype Link = Link(commentId: CommentId, targetId: string)

  datatype Target = OnTask(taskId: string) | OnProject(projectId: string)

  /** A comment as the service returns it: its row with the ids of its linked
      tasks and projects, in table order. */
  datatype CommentView = CommentView(
    id: CommentId,
    content: string,
    creatorId: string,
    taskIds: seq<string>,
    projectIds: seq<string>)

  /** The request body of create and update; `None` is an absent field. */
  datatype CommentInput = CommentInput(
    content: Option<string>,
    creatorId: Option<string>,
    taskId: Option<string>,
    projectId: Option<string>)

  const ExactlyOneTarget := "Exactly one target is required: taskId or projectId"

  /** The targets one comment is linked to through one join table, in table order. */
  function TargetsOf(links: seq<Link>, id: CommentId): (r: seq<string>)
    ensures |r| <= |links|
    ensures forall t :: t in r <==> Link(id, t) in links
  {
    if links == [] then []
    else (if links[0].commentId == id then [links[0].targetId] else []) + TargetsOf(links[1..], id)
  }

  /** `deleteMany({ where: { commentId: id } })` on one join table. */
  function Unlinked(links: seq<Link>, id: CommentId): (r: seq<Link>)
    ensures forall l :: l in r <==> l in links && l.commentId != id
  {
    if links == [] then []
    else (if links[0].commentId == id then [] else [links[0]]) + Unlinked(links[1..], id)
  }

  lemma {:induction false} TargetsOfAppend(a: seq<Link>, b: seq<Link>, id: CommentId)
    ensures TargetsOf(a + b, id) == TargetsOf(a, id) + TargetsOf(b, id)
  {
    if a == [] {
      assert a + b == b;
    } else {
      assert (a + b)[0] == a[0];
      assert (a + b)[1..] == a[1..] + b;
      TargetsOfAppend(a[1..], b, id);
    }
  }

  /** A single link is a target of its own comment only. */
  lemma OneLinkTargets(l: Link, id: CommentId)
    ensures |TargetsOf([l], id)| == if l.commentId == id then 1 else 0
  {
    assert [l][1..] == [];
  }

  /** Deleting one comment's links leaves every other comment's links as they were. */
  lemma {:induction false} TargetsOfUnlinked(links: seq<Link>, id: CommentId, other: CommentId)
    ensures TargetsOf(Unlinked(links, id), other) == if other == id then [] else TargetsOf(links, other)
  {
    if links != [] {
      TargetsOfUnlinked(links[1..], id, other);
      var head := if links[0].commentId == id then [] else [links[0]];
      TargetsOfAppend(head, Unlinked(links[1..], id), other);
    }
  }

  /** A comment no link row names has no targets, and deleting its links changes nothing. */
  lemma {:induction false} NoTargetsWithoutLinks(links: seq<Link>, id: CommentId)
    requires forall l :: l in links ==> l.commentId != id
    ensures TargetsOf(links, id) == []
    ensures Unlinked(links, id) == links
  {
    if links != [] {
      NoTargetsWithoutLinks(links[1..], id);
      assert links == [links[0]] + links[1..];
    }
  }

  /** `links[0]?.targetId`. */
  function First(ids: seq<string>): (r: Option<string>)
    ensures r.Some? <==> ids != []
    ensures r.Some? ==> r.value == ids[0]
  {
    if ids == [] then None else Some(ids[0])
  }

  /** `content.trim().length === 0`: every character is whitespace. */
  predicate Blank(s: string)
    ensures Blank(s) <==> AllWhitespace(s)
  {
    BlankIffAllWhitespace(s);
    |Trim(s)| == 0
  }

  /** The input checks of create, in the order the service makes them; `Some`
      carries the message of the 400 response. */
  function ValidateCreate(input: CommentInput): (r: Option<string>)
    ensures r.Some? <==>
      (input.content.None? || AllWhitespace(input.content.value) || !Truthy(input.creatorId)
       || Truthy(input.taskId) == Truthy(input.projectId))
    ensures r == Some("content is required") <==> input.content.None? || AllWhitespace(input.content.value)
    ensures r.None? ==> Truthy(input.taskId) != Truthy(input.projectId)
  {
    if !Truthy(input.content) || Blank(input.content.value) then Some("content is required")
    else if !Truthy(input.creatorId) then Some("creatorId is required")
    else if Truthy(input.taskId) == Truthy(input.projectId) then Some(ExactlyOneTarget)
    else None
  }

  /** The input checks of update, made before the store is consulted. */
  function ValidateUpdate(input: CommentInput): (r: Option<string>)
    ensures r.Some? <==>
      (!Truthy(input.creatorId) || (input.content.Some? && AllWhitespace(input.content.value))
       || (Truthy(input.taskId) && Truthy(input.projectId)))
    ensures r == Some("creatorId is required") <==> !Truthy(input.creatorId)
  {
    if !Truthy(input.creatorId) then Some("creatorId is required")
    else if input.content.Some? && Blank(input.content.value) then Some("content cannot be empty")
    else if Truthy(input.taskId) && Truthy(input.projectId) then Some(ExactlyOneTarget)
    else None
  }

  /** Update's choice of the next target. `??` keeps a given id even when it is
      `""`, while the fallbacks test truthiness; `None` is the 400 "exactly one
      target" answer. */
  function ResolveNextTarget(
    taskId: Option<string>, projectId: Option<string>,
    existingTaskId: Option<string>, existingProjectId: Option<string>): (r: Option<Target>)
    // a resolved target always names a non-empty id
    ensures r.Some? && r.value.OnTask? ==> r.value.taskId != ""
    ensures r.Some? && r.value.OnProject? ==> r.value.projectId != ""
    // a truthy taskId wins
    ensures Truthy(taskId) && !Truthy(projectId) ==> r == Some(OnTask(taskId.value))
    // otherwise a truthy projectId wins
    ensures !Truthy(taskId) && Truthy(projectId) ==> r == Some(OnProject(projectId.value))
    // both given: no target
    ensures Truthy(taskId) && Truthy(projectId) ==> r.None?
    // neither given: the existing link is kept, if there is exactly one kind of it
    ensures taskId.None? && projectId.None? ==>
      r == (if Truthy(existingTaskId) == Truthy(existingProjectId) then None
            else if Truthy(existingTaskId) then Some(OnTask(existingTaskId.value))
            else Some(OnProject(existingProjectId.value)))
    // neither truthy: a given id, even `""`, shuts out the fallback to that kind of
    // existing link; the fallbacks left must name exactly one kind
    ensures !Truthy(taskId) && !Truthy(projectId) ==>
      var fallbackTask := if taskId.Some? then None else existingTaskId;
      var fallbackProject := if projectId.Some? then None else existingProjectId;
      r == (if Truthy(fallbackTask) == Truthy(fallbackProject) then None
            else if Truthy(fallbackTask) then Some(OnTask(fallbackTask.value))
            else Some(OnProject(fallbackProject.value)))
  {
    var nextTaskId := if taskId.Some? then taskId else if Truthy(projectId) then None else existingTaskId;
    var nextProjectId := if projectId.Some? then projectId else if Truthy(taskId) then None else existingProjectId;
    if Truthy(nextTaskId) == Truthy(nextProjectId) then None
    else if Truthy(nextTaskId) then Some(OnTask(nextTaskId.value))
    else Some(OnProject(nextProjectId.value))
  }

  /** An empty-string `taskId` is not "absent" to `??`: it suppresses the fallback to
      the existing task link but not to an existing project link, so a comment
      linked to a task cannot be updated with `taskId: ""`, although it can be
      updated with no taskId at all. */
  lemma EmptyTaskIdDropsExistingTask(existingTaskId: string)
    requires existingTaskId != ""
    ensures ResolveNextTarget(Some(""), None, Some(existingTaskId), None).None?
    ensures ResolveNextTarget(None, None, Some(existingTaskId), None) == Some(OnTask(existingTaskId))
    ensures forall p :: p != "" ==> ResolveNextTarget(Some(""), None, None, Some(p)) == Some(OnProject(p))
  {
  }

  /** The in-memory store: the rows the service reads, and the comment table with
      its two join tables. */
  class Database {
    var users: set<string>
    var tasks: set<string>
    var projects: set<string>
    var comments: map<CommentId, CommentRow>
    var taskLinks: seq<Link>
    var projectLinks: seq<Link>
    var nextId: CommentId

    /** Referential integrity, as the store's foreign keys enforce it. */
    ghost predicate Valid()
      reads this
    {
      && (forall id :: id in comments ==> id < nextId && comments[id].creatorId in users)
      && (forall l :: l in taskLinks ==> l.commentId in comments && l.targetId in tasks)
      && (forall l :: l in projectLinks ==> l.commentId in comments && l.targetId in projects)
    }

    /** The invariant the service keeps: every comment has exactly one target. */
    ghost predicate ExclusiveTargets()
      reads this
    {
      Exclusive(comments, taskLinks, projectLinks)
    }

    /** The rows create looks up: the creator and the given target. */
    predicate CreateRowsExist(input: CommentInput)
      reads this
    {
      && input.creatorId.Some? && input.creatorId.value in users
      && (Truthy(input.taskId) ==> input.taskId.value in tasks)
      && (Truthy(input.projectId) ==> input.projectId.value in projects)
    }

    predicate HasTarget(t: Target)
      reads this
    {
      match t
      case OnTask(taskId) => taskId in tasks
      case OnProject(projectId) => projectId in projects
    }

    /** A comment with its links expanded (`include: commentInclude`). */
    function View(id: CommentId): (v: CommentView)
      requires id in comments
      reads this
      ensures v.id == id && v.content == comments[id].content && v.creatorId == comments[id].creatorId
      ensures forall t :: t in v.taskIds <==> Link(id, t) in taskLinks
      ensures forall p :: p in v.projectIds <==> Link(id, p) in projectLinks
    {
      CommentView(id, comments[id].content, comments[id].creatorId,
                  TargetsOf(taskLinks, id), TargetsOf(projectLinks, id))
    }

    /** The views of the comments `ids`, in the same order. */
    function Views(ids: seq<CommentId>): (r: seq<CommentView>)
      requires forall i :: 0 <= i < |ids| ==> ids[i] in comments
      reads this
      ensures |r| == |ids| && forall i :: 0 <= i < |ids| ==> r[i].id == ids[i] && r[i] == View(ids[i])
    {
      if ids == [] then [] else [View(ids[0])] + Views(ids[1..])
    }

    /** All comments linked to `target`, each once, in increasing id order; there
        are some exactly when some link row names `target`. */
    function LinkedTo(links: seq<Link>, target: string): (r: seq<CommentView>)
      requires forall l :: l in links ==> l.commentId in comments
      requires forall id :: id in comments ==> id < nextId
      reads this
      ensures forall i :: 0 <= i < |r| ==> r[i].id in comments && r[i] == View(r[i].id) && Link(r[i].id, target) in links
      ensures forall id :: id in comments && Link(id, target) in links ==> View(id) in r
      ensures forall i, j :: 0 <= i < j < |r| ==> r[i].id < r[j].id
      ensures r != [] <==> exists l :: l in links && l.targetId == target
    {
      LinkedViews(links, target);
      LinkedViewsComplete(links, target);
      Views(LinkedIdsBelow(comments, links, target, nextId))
    }

    /** The views of the linked ids are views of linked comments, in increasing id
        order, and there are some exactly when some link row names `target`. */
    lemma LinkedViews(links: seq<Link>, target: string)
      requires forall l :: l in links ==> l.commentId in comments
      requires forall id :: id in comments ==> id < nextId
      ensures var r := Views(LinkedIdsBelow(comments, links, target, nextId));
        forall i :: 0 <= i < |r| ==> r[i].id in comments && r[i] == View(r[i].id) && Link(r[i].id, target) in links
      ensures var r := Views(LinkedIdsBelow(comments, links, target, nextId));
        forall i, j :: 0 <= i < j < |r| ==> r[i].id < r[j].id
      ensures Views(LinkedIdsBelow(comments, links, target, nextId)) != [] <==> exists l :: l in links && l.targetId == target
    {
      var ids := LinkedIdsBelow(comments, links, target, nextId);
      var r := Views(ids);
      forall i, j | 0 <= i < j < |r| ensures r[i].id < r[j].id {
        assert r[i].id == ids[i] && r[j].id == ids[j];
      }
      LinkedIdsNonEmpty(comments, links, target, nextId);
    }

    /** Every comment linked to `target` has its view among the linked views. */
    lemma LinkedViewsComplete(links: seq<Link>, target: string)
      requires forall l :: l in links ==> l.commentId in comments
      requires forall id :: id in comments ==> id < nextId
      ensures forall id :: id in comments && Link(id, target) in links ==>
        View(id) in Views(LinkedIdsBelow(comments, links, target, nextId))
    {
      var ids := LinkedIdsBelow(comments, links, target, nextId);
      var r := Views(ids);
      forall id | id in comments && Link(id, target) in links ensures View(id) in r {
        LinkedIdsAll(comments, links, target, nextId, id);
        var i :| 0 <= i < |ids| && ids[i] == id;
        assert r[i] == View(id);
      }
    }

    constructor (users: set<string>, tasks: set<string>, projects: set<string>)
      ensures Valid() && ExclusiveTargets()
      ensures this.users == users && this.tasks == tasks && this.projects == projects
      ensures comments == map[] && taskLinks == [] && projectLinks == [] && nextId == 0
    {
      this.users, this.tasks, this.projects := users, tasks, projects;
      comments, taskLinks, projectLinks, nextId := map[], [], [], 0;
    }

    /** `comment.create` with a nested link create: one new row and one new link. */
    method CreateComment(content: string, creatorId: string, target: Target) returns (id: CommentId)
      requires Valid() && creatorId in users && HasTarget(target)
      modifies this
      ensures Valid()
      ensures id == old(nextId) && id !in old(comments) && nextId == old(nextId) + 1
      ensures comments == old(comments)[id := CommentRow(content, creatorId)]
      ensures taskLinks == old(taskLinks) + NewTaskLinks(id, target)
      ensures projectLinks == old(projectLinks) + NewProjectLinks(id, target)
      ensures users == old(users) && tasks == old(tasks) && projects == old(projects)
      ensures TargetCount(taskLinks, projectLinks, id) == 1
      ensures old(ExclusiveTargets()) ==> ExclusiveTargets()
    {
      ghost var oldComments := comments;
      id := InsertComment(content, creatorId);
      NoTargetsWithoutLinks(taskLinks, id);
      NoTargetsWithoutLinks(projectLinks, id);
      RelinkKeepsExclusive(oldComments, taskLinks, projectLinks, comments, id, target);
      match target {
        case OnTask(taskId) => CreateTaskLink(id, taskId);
        case OnProject(projectId) => CreateProjectLink(id, projectId);
      }
    }

    /** The row part of `comment.create`: a fresh id, which no link names yet. */
    method InsertComment(content: string, creatorId: string) returns (id: CommentId)
      requires Valid() && creatorId in users
      modifies this
      ensures Valid()
      ensures id == old(nextId) && id !in old(comments) && nextId == old(nextId) + 1
      ensures comments == old(comments)[id := CommentRow(content, creatorId)]
      ensures forall l :: l in taskLinks ==> l.commentId != id
      ensures forall l :: l in projectLinks ==> l.commentId != id
      ensures users == old(users) && tasks == old(tasks) && projects == old(projects)
      ensures taskLinks == old(taskLinks) && projectLinks == old(projectLinks)
    {
      id := nextId;
      nextId := nextId + 1;
      comments := comments[id := CommentRow(content, creatorId)];
    }

    /** `commentTask.deleteMany({ where: { commentId: id } })`. */
    method DeleteTaskLinks(id: CommentId)
      requires Valid()
      modifies this
      ensures Valid()
      ensures taskLinks == Unlinked(old(taskLinks), id)
      ensures users == old(users) && tasks == old(tasks) && projects == old(projects)
      ensures comments == old(comments) && projectLinks == old(projectLinks) && nextId == old(nextId)
    {
      taskLinks := Unlinked(taskLinks, id);
    }

    /** `commentProject.deleteMany({ where: { commentId: id } })`. */
    method DeleteProjectLinks(id: CommentId)
      requires Valid()
      modifies this
      ensures Valid()
      ensures projectLinks == Unlinked(old(projectLinks), id)
      ensures users == old(users) && tasks == old(tasks) && projects == old(projects)
      ensures comments == old(comments) && taskLinks == old(taskLinks) && nextId == old(nextId)
    {
      projectLinks := Unlinked(projectLinks, id);
    }

    /** `comment.update`: the content only when one is supplied, the creator always. */
    method UpdateComment(id: CommentId, content: Option<string>, creatorId: string)
      requires Valid() && id in comments && creatorId in users
      modifies this
      ensures Valid()
      ensures comments == old(comments)[id := CommentRow(
        if content.Some? then content.value else old(comments[id].content), creatorId)]
      ensures users == old(users) && tasks == old(tasks) && projects == old(projects)
      ensures taskLinks == old(taskLinks) && projectLinks == old(projectLinks) && nextId == old(nextId)
    {
      var newContent := if content.Some? then content.value else comments[id].content;
      comments := comments[id := CommentRow(newContent, creatorId)];
    }

    /** `commentTask.create`. */
    method CreateTaskLink(id: CommentId, taskId: string)
      requires Valid() && id in comments && taskId in tasks
      modifies this
      ensures Valid()
      ensures taskLinks == old(taskLinks) + [Link(id, taskId)]
      ensures users == old(users) && tasks == old(tasks) && projects == old(projects)
      ensures comments == old(comments) && projectLinks == old(projectLinks) && nextId == old(nextId)
    {
      taskLinks := taskLinks + [Link(id, taskId)];
    }

    /** `commentProject.create`. */
    method CreateProjectLink(id: CommentId, projectId: string)
      requires Valid() && id in comments && projectId in projects
      modifies this
      ensures Valid()
      ensures projectLinks == old(projectLinks) + [Link(id, projectId)]
      ensures users == old(users) && tasks == old(tasks) && projects == old(projects)
      ensures comments == old(comments) && taskLinks == old(taskLinks) && nextId == old(nextId)
    {
      projectLinks := projectLinks + [Link(id, projectId)];
    }

    /** `comment.delete`; the foreign keys require that no link row names it. */
    method DeleteComment(id: CommentId)
      requires Valid() && id in comments
      requires forall l :: l in taskLinks ==> l.commentId != id
      requires forall l :: l in projectLinks ==> l.commentId != id
      modifies this
      ensures Valid()
      ensures comments == old(comments) - {id}
      ensures users == old(users) && tasks == old(tasks) && projects == old(projects)
      ensures taskLinks == old(taskLinks) && projectLinks == old(projectLinks) && nextId == old(nextId)
    {
      comments := comments - {id};
    }

    /** `comment.deleteMany()`, with the join rows of the deleted comments going
        with them. */
    method DeleteAllComments()
      requires Valid()
      modifies this
      ensures Valid() && ExclusiveTargets()
      ensures comments == map[] && taskLinks == [] && projectLinks == []
      ensures users == old(users) && tasks == old(tasks) && projects == old(projects) && nextId == old(nextId)
    {
      comments, taskLinks, projectLinks := map[], [], [];
    }

    /** The `$transaction` of update: drop both kinds of link, update the row, link
        the resolved target. */
    method UpdateTransaction(id: CommentId, content: Option<string>, creatorId: string, target: Target)
      requires Valid() && id in comments && creatorId in users && HasTarget(target)
      modifies this
      ensures Valid()
      ensures comments == old(comments)[id := CommentRow(
        if content.Some? then content.value else old(comments[id].content), creatorId)]
      ensures taskLinks == Unlinked(old(taskLinks), id) + NewTaskLinks(id, target)
      ensures projectLinks == Unlinked(old(projectLinks), id) + NewProjectLinks(id, target)
      ensures users == old(users) && tasks == old(tasks) && projects == old(projects) && nextId == old(nextId)
      ensures TargetCount(taskLinks, projectLinks, id) == 1
      ensures old(ExclusiveTargets()) ==> ExclusiveTargets()
    {
      RelinkKeepsExclusive(comments, taskLinks, projectLinks, comments, id, target);
      DeleteTaskLinks(id);
      DeleteProjectLinks(id);
      UpdateComment(id, content, creatorId);
      match target {
        case OnTask(taskId) => CreateTaskLink(id, taskId);
        case OnProject(projectId) => CreateProjectLink(id, projectId);
      }
    }

    /** The `$transaction` of delete: drop both kinds of link, then the row. */
    method DeleteTransaction(id: CommentId)
      requires Valid() && id in comments
      modifies this
      ensures Valid()
      ensures comments == old(comments) - {id}
      ensures taskLinks == Unlinked(old(taskLinks), id) && projectLinks == Unlinked(old(projectLinks), id)
      ensures users == old(users) && tasks == old(tasks) && projects == old(projects) && nextId == old(nextId)
      ensures old(ExclusiveTargets()) ==> ExclusiveTargets()
    {
      ghost var oldTasks, oldProjects := taskLinks, projectLinks;
      DeleteTaskLinks(id);
      DeleteProjectLinks(id);
      DeleteComment(id);
      forall c | c in comments
        ensures TargetsOf(taskLinks, c) == TargetsOf(oldTasks, c)
        ensures TargetsOf(projectLinks, c) == TargetsOf(oldProjects, c)
      {
        TargetsOfUnlinked(oldTasks, id, c);
        TargetsOfUnlinked(oldProjects, id, c);
      }
    }
  }

  /** `comment.findMany` over the comments linked to `target` through `links`,
      restricted to ids below `n`: their ids, in increasing order. */
  function LinkedIdsBelow(comments: map<CommentId, CommentRow>, links: seq<Link>, target: string, n: nat): (r: seq<CommentId>)
    ensures forall i :: 0 <= i < |r| ==> r[i] < n && r[i] in comments && Link(r[i], target) in links
    ensures forall id :: id < n && id in comments && Link(id, target) in links ==> id in r
    ensures forall i, j :: 0 <= i < j < |r| ==> r[i] < r[j]
    decreases n
  {
    if n == 0 then []
    else
      var earlier := LinkedIdsBelow(comments, links, target, n - 1);
      if n - 1 in comments && Link(n - 1, target) in links then earlier + [n - 1] else earlier
  }

  /** When every comment id is below `n`, each comment linked to `target` is among
      the ids below `n`. */
  lemma LinkedIdsAll(comments: map<CommentId, CommentRow>, links: seq<Link>, target: string, n: nat, id: CommentId)
    requires forall id :: id in comments ==> id < n
    requires id in comments && Link(id, target) in links
    ensures id in LinkedIdsBelow(comments, links, target, n)
  {
    assert id < n;
  }

  /** When every link names a comment and every comment id is below `n`, there are
      linked ids below `n` exactly when some link row names `target`. */
  lemma LinkedIdsNonEmpty(comments: map<CommentId, CommentRow>, links: seq<Link>, target: string, n: nat)
    requires forall l :: l in links ==> l.commentId in comments
    requires forall id :: id in comments ==> id < n
    ensures LinkedIdsBelow(comments, links, target, n) != [] <==> exists l :: l in links && l.targetId == target
  {
    var ids := LinkedIdsBelow(comments, links, target, n);
    if l :| l in links && l.targetId == target {
      assert Link(l.commentId, target) == l;
      LinkedIdsAll(comments, links, target, n, l.commentId);
    }
    if ids != [] {
      var l := Link(ids[0], target);
      assert l in links && l.targetId == target;
    }
  }

  /** The target `update` resolves for comment `id` from its input and the
      comment's first task link and first project link. */
  function UpdateTarget(input: CommentInput, taskLinks: seq<Link>, projectLinks: seq<Link>, id: CommentId): Option<Target> {
    ResolveNextTarget(input.taskId, input.projectId,
                      First(TargetsOf(taskLinks, id)), First(TargetsOf(projectLinks, id)))
  }

  function NotFound(kind: string, id: string): string {
    kind + " with ID " + id + " not found"
  }

  /** The links `target` adds for comment `id`, in the task table and in the
      project table. */
  function NewTaskLinks(id: CommentId, target: Target): seq<Link> {
    if target.OnTask? then [Link(id, target.taskId)] else []
  }

  function NewProjectLinks(id: CommentId, target: Target): seq<Link> {
    if target.OnProject? then [Link(id, target.projectId)] else []
  }

  /** How many targets comment `id` has over both join tables. */
  function TargetCount(taskLinks: seq<Link>, projectLinks: seq<Link>, id: CommentId): nat {
    |TargetsOf(taskLinks, id)| + |TargetsOf(projectLinks, id)|
  }

  /** Every comment of `comments` has exactly one target. */
  ghost predicate Exclusive(comments: map<CommentId, CommentRow>, taskLinks: seq<Link>, projectLinks: seq<Link>) {
    forall id :: id in comments ==> TargetCount(taskLinks, projectLinks, id) == 1
  }

  /** After relinking comment `id` to `target`, `id` has one target and every
      other comment has the targets it had. */
  lemma RelinkedCount(oldTasks: seq<Link>, oldProjects: seq<Link>, id: CommentId, target: Target, c: CommentId)
    ensures TargetCount(Unlinked(oldTasks, id) + NewTaskLinks(id, target),
                        Unlinked(oldProjects, id) + NewProjectLinks(id, target), c)
         == if c == id then 1 else TargetCount(oldTasks, oldProjects, c)
  {
    TargetsOfAppend(Unlinked(oldTasks, id), NewTaskLinks(id, target), c);
    TargetsOfAppend(Unlinked(oldProjects, id), NewProjectLinks(id, target), c);
    TargetsOfUnlinked(oldTasks, id, c);
    TargetsOfUnlinked(oldProjects, id, c);
    if target.OnTask? {
      OneLinkTargets(Link(id, target.taskId), c);
    } else {
      OneLinkTargets(Link(id, target.projectId), c);
    }
  }

  /** Relinking one comment gives it exactly one target and, when every comment had
      exactly one before, keeps that so. */
  lemma RelinkKeepsExclusive(
    oldComments: map<CommentId, CommentRow>, oldTasks: seq<Link>, oldProjects: seq<Link>,
    comments: map<CommentId, CommentRow>, id: CommentId, target: Target)
    requires comments.Keys == oldComments.Keys + {id}
    ensures TargetCount(Unlinked(oldTasks, id) + NewTaskLinks(id, target),
                        Unlinked(oldProjects, id) + NewProjectLinks(id, target), id) == 1
    ensures Exclusive(oldComments, oldTasks, oldProjects) ==>
      Exclusive(comments, Unlinked(oldTasks, id) + NewTaskLinks(id, target),
                Unlinked(oldProjects, id) + NewProjectLinks(id, target))
  {
    RelinkedCount(oldTasks, oldProjects, id, target, id);
    forall c | c in comments
      ensures TargetCount(Unlinked(oldTasks, id) + NewTaskLinks(id, target),
                          Unlinked(oldProjects, id) + NewProjectLinks(id, target), c)
           == if c == id then 1 else TargetCount(oldTasks, oldProjects, c)
    {
      RelinkedCount(oldTasks, oldProjects, id, target, c);
    }
  }

  /** `create`: checks the input (400), then the creator and the target (404), then
      creates the comment with its single link (201). Every failure leaves the store
      as it was. */
  method Create(db: Database, input: CommentInput) returns (r: StandardResponse<CommentView>)
    requires db.Valid()
    modifies db
    ensures db.Valid()
    ensures r.httpStatus in {201, 400, 404}
    ensures r.httpStatus != 201 ==> unchanged(db) && r.data.None?
    // 400: the input checks fail
    ensures ValidateCreate(input).Some? ==> r == Reply(400, ValidateCreate(input).value, None)
    // 404: the input is well formed but the creator or the target row is missing,
    // checked in this order: the user, then the task, then the project
    ensures ValidateCreate(input).None? && !old(db.CreateRowsExist(input)) ==> r.httpStatus == 404
    ensures ValidateCreate(input).None? && input.creatorId.value !in old(db.users) ==>
      r == Reply(404, NotFound("User", input.creatorId.value), None)
    ensures (ValidateCreate(input).None? && input.creatorId.value in old(db.users)
             && Truthy(input.taskId) && input.taskId.value !in old(db.tasks)) ==>
      r == Reply(404, NotFound("Task", input.taskId.value), None)
    ensures (ValidateCreate(input).None? && input.creatorId.value in old(db.users)
             && !(Truthy(input.taskId) && input.taskId.value !in old(db.tasks))
             && Truthy(input.projectId) && input.projectId.value !in old(db.projects)) ==>
      r == Reply(404, NotFound("Project", input.projectId.value), None)
    // 201: one new comment with one new link to the given target
    ensures ValidateCreate(input).None? && old(db.CreateRowsExist(input)) ==>
      var id := old(db.nextId);
      && r.httpStatus == 201
      && id !in old(db.comments)
      && db.comments == old(db.comments)[id := CommentRow(input.content.value, input.creatorId.value)]
      && (Truthy(input.taskId) ==>
            db.taskLinks == old(db.taskLinks) + [Link(id, input.taskId.value)]
            && db.projectLinks == old(db.projectLinks))
      && (!Truthy(input.taskId) ==>
            db.projectLinks == old(db.projectLinks) + [Link(id, input.projectId.value)]
            && db.taskLinks == old(db.taskLinks))
      && TargetCount(db.taskLinks, db.projectLinks, id) == 1
      && db.nextId == id + 1
      && r == Reply(201, "Create a comment", Some(db.View(id)))
    ensures db.users == old(db.users) && db.tasks == old(db.tasks) && db.projects == old(db.projects)
    ensures old(db.ExclusiveTargets()) ==> db.ExclusiveTargets()
  {
    var invalid := ValidateCreate(input);
    if invalid.Some? {
      return Reply(400, invalid.value, None);
    }
    var creatorId := input.creatorId.value;
    if creatorId !in db.users {
      return Reply(404, NotFound("User", creatorId), None);
    }
    if Truthy(input.taskId) && input.taskId.value !in db.tasks {
      return Reply(404, NotFound("Task", input.taskId.value), None);
    }
    if Truthy(input.projectId) && input.projectId.value !in db.projects {
      return Reply(404, NotFound("Project", input.projectId.value), None);
    }
    var target := if Truthy(input.taskId) then OnTask(input.taskId.value) else OnProject(input.projectId.value);
    var id := db.CreateComment(input.content.value, creatorId, target);
    r := Reply(201, "Create a comment", Some(db.View(id)));
  }

  /** `getById`: the expanded comment (200), or 404 when there is none. */
  method GetById(db: Database, id: CommentId) returns (r: StandardResponse<CommentView>)
    requires db.Valid()
    ensures id !in db.comments ==> r == Reply(404, NotFound("Comment", NatToString(id)), None)
    ensures id in db.comments ==> r == Reply(200, "Get comment by ID: " + NatToString(id), Some(db.View(id)))
  {
    if id !in db.comments {
      return Reply(404, NotFound("Comment", NatToString(id)), None);
    }
    r := Reply(200, "Get comment by ID: " + NatToString(id), Some(db.View(id)));
  }

  /** `update`: input checks (400), then the comment and the creator (404), then
      the next target (400 when it is not exactly one, 404 when its row is missing),
      and only then the transaction. */
  method Update(db: Database, id: CommentId, input: CommentInput) returns (r: StandardResponse<CommentView>)
    requires db.Valid()
    modifies db
    ensures db.Valid()
    ensures r.httpStatus in {200, 400, 404}
    ensures r.httpStatus != 200 ==> unchanged(db) && r.data.None?
    // 400: the input checks fail
    ensures ValidateUpdate(input).Some? ==> r == Reply(400, ValidateUpdate(input).value, None)
    // 404: the comment is missing
    ensures ValidateUpdate(input).None? && id !in old(db.comments) ==>
      r == Reply(404, NotFound("Comment", NatToString(id)), None)
    // 404: the creator is missing
    ensures ValidateUpdate(input).None? && id in old(db.comments) && input.creatorId.value !in old(db.users) ==>
      r == Reply(404, NotFound("User", input.creatorId.value), None)
    // 400: the next target is not exactly one of task and project
    ensures (ValidateUpdate(input).None? && id in old(db.comments) && input.creatorId.value in old(db.users)
             && UpdateTarget(input, old(db.taskLinks), old(db.projectLinks), id).None?) ==>
      r == Reply(400, ExactlyOneTarget, None)
    // 404: the next target's row is missing; 200: the comment is relinked to it
    ensures (ValidateUpdate(input).None? && id in old(db.comments) && input.creatorId.value in old(db.users)
             && UpdateTarget(input, old(db.taskLinks), old(db.projectLinks), id).Some?) ==>
      var target := UpdateTarget(input, old(db.taskLinks), old(db.projectLinks), id).value;
      && (target.OnTask? && target.taskId !in old(db.tasks) ==>
            r == Reply(404, NotFound("Task", target.taskId), None))
      && (target.OnProject? && target.projectId !in old(db.projects) ==>
            r == Reply(404, NotFound("Project", target.projectId), None))
      && (old(db.HasTarget(target)) ==>
            && r.httpStatus == 200
            && db.comments == old(db.comments)[id := CommentRow(
                 if input.content.Some? then input.content.value else old(db.comments[id].content),
                 input.creatorId.value)]
            && db.taskLinks == Unlinked(old(db.taskLinks), id) + NewTaskLinks(id, target)
            && db.projectLinks == Unlinked(old(db.projectLinks), id) + NewProjectLinks(id, target)
            && TargetCount(db.taskLinks, db.projectLinks, id) == 1
            && r == Reply(200, "Update comment with ID: " + NatToString(id), Some(db.View(id))))
    ensures db.users == old(db.users) && db.tasks == old(db.tasks) && db.projects == old(db.projects)
    ensures db.nextId == old(db.nextId)
    ensures old(db.ExclusiveTargets()) ==> db.ExclusiveTargets()
  {
    var invalid := ValidateUpdate(input);
    if invalid.Some? {
      return Reply(400, invalid.value, None);
    }
    if id !in db.comments {
      return Reply(404, NotFound("Comment", NatToString(id)), None);
    }
    var creatorId := input.creatorId.value;
    if creatorId !in db.users {
      return Reply(404, NotFound("User", creatorId), None);
    }
    var next := UpdateTarget(input, db.taskLinks, db.projectLinks, id);
    if next.None? {
      return Reply(400, ExactlyOneTarget, None);
    }
    var target := next.value;
    match target {
      case OnTask(taskId) =>
        if taskId !in db.tasks {
          return Reply(404, NotFound("Task", taskId), None);
        }
      case OnProject(projectId) =>
        if projectId !in db.projects {
          return Reply(404, NotFound("Project", projectId), None);
        }
    }
    db.UpdateTransaction(id, input.content, creatorId, target);
    r := Reply(200, "Update comment with ID: " + NatToString(id), Some(db.View(id)));
  }

  /** `delete`: 404 and no change when the comment is absent; otherwise removes its
      links of both kinds and the comment itself (204). */
  method Delete(db: Database, id: CommentId) returns (r: StandardResponse<CommentView>)
    requires db.Valid()
    modifies db
    ensures db.Valid()
    ensures id !in old(db.comments) ==>
      r == Reply(404, NotFound("Comment", NatToString(id)), None) && unchanged(db)
    ensures id in old(db.comments) ==>
      && r == Reply(204, "Delete comment with ID: " + NatToString(id), None)
      && db.comments == old(db.comments) - {id}
      && db.taskLinks == Unlinked(old(db.taskLinks), id)
      && db.projectLinks == Unlinked(old(db.projectLinks), id)
    ensures id !in db.comments && db.nextId == old(db.nextId)
    ensures forall l :: l in db.taskLinks ==> l.commentId != id
    ensures forall l :: l in db.projectLinks ==> l.commentId != id
    ensures db.users == old(db.users) && db.tasks == old(db.tasks) && db.projects == old(db.projects)
    ensures old(db.ExclusiveTargets()) ==> db.ExclusiveTargets()
  {
    if id !in db.comments {
      return Reply(404, NotFound("Comment", NatToString(id)), None);
    }
    db.DeleteTransaction(id);
    r := Reply(204, "Delete comment with ID: " + NatToString(id), None);
  }

  /** `getByTaskId`: 404 when the task does not exist, then 404 when no comment is
      linked to it; otherwise 200 with exactly the comments linked to it. */
  method GetByTaskId(db: Database, taskId: string) returns (r: StandardResponse<seq<CommentView>>)
    requires db.Valid()
    ensures taskId !in db.tasks ==> r == Reply(404, NotFound("Task", taskId), None)
    ensures taskId in db.tasks && !(exists l :: l in db.taskLinks && l.targetId == taskId) ==>
      r == Reply(404, "No comments found for task " + taskId, None)
    ensures r.httpStatus == 200 ==> r == Reply(200, "List comments for task " + taskId, r.data)
    ensures r.httpStatus == 200 <==> taskId in db.tasks && exists l :: l in db.taskLinks && l.targetId == taskId
    ensures r.httpStatus != 200 ==> r.httpStatus == 404 && r.data.None?
    ensures r.httpStatus == 200 ==> r.data.Some? && r.data.value != []
    ensures r.data.Some? ==>
      && (forall i :: 0 <= i < |r.data.value| ==>
            r.data.value[i].id in db.comments && r.data.value[i] == db.View(r.data.value[i].id) && taskId in r.data.value[i].taskIds)
      && (forall id :: id in db.comments && Link(id, taskId) in db.taskLinks ==> db.View(id) in r.data.value)
      && (forall i, j :: 0 <= i < j < |r.data.value| ==> r.data.value[i].id < r.data.value[j].id)
  {
    if taskId !in db.tasks {
      return Reply(404, NotFound("Task", taskId), None);
    }
    var response := db.LinkedTo(db.taskLinks, taskId);
    forall i | 0 <= i < |response| ensures taskId in response[i].taskIds {
      assert Link(response[i].id, taskId) in db.taskLinks;
    }
    if response == [] {
      return Reply(404, "No comments found for task " + taskId, None);
    }
    r := Reply(200, "List comments for task " + taskId, Some(response));
  }

  /** `getByProjectId`: as `getByTaskId`, over the project links. */
  method GetByProjectId(db: Database, projectId: string) returns (r: StandardResponse<seq<CommentView>>)
    requires db.Valid()
    ensures projectId !in db.projects ==> r == Reply(404, NotFound("Project", projectId), None)
    ensures projectId in db.projects && !(exists l :: l in db.projectLinks && l.targetId == projectId) ==>
      r == Reply(404, "No comments found for project " + projectId, None)
    ensures r.httpStatus == 200 ==> r == Reply(200, "List comments for project " + projectId, r.data)
    ensures r.httpStatus == 200 <==>
      projectId in db.projects && exists l :: l in db.projectLinks && l.targetId == projectId
    ensures r.httpStatus != 200 ==> r.httpStatus == 404 && r.data.None?
    ensures r.httpStatus == 200 ==> r.data.Some? && r.data.value != []
    ensures r.data.Some? ==>
      && (forall i :: 0 <= i < |r.data.value| ==>
            r.data.value[i].id in db.comments && r.data.value[i] == db.View(r.data.value[i].id) && projectId in r.data.value[i].projectIds)
      && (forall id :: id in db.comments && Link(id, projectId) in db.projectLinks ==> db.View(id) in r.data.value)
      && (forall i, j :: 0 <= i < j < |r.data.value| ==> r.data.value[i].id < r.data.value[j].id)
  {
    if projectId !in db.projects {
      return Reply(404, NotFound("Project", projectId), None);
    }
    var response := db.LinkedTo(db.projectLinks, projectId);
    forall i | 0 <= i < |response| ensures projectId in response[i].projectIds {
      assert Link(response[i].id, projectId) in db.projectLinks;
    }
    if response == [] {
      return Reply(404, "No comments found for project " + projectId, None);
    }
    r := Reply(200, "List comments for project " + projectId, Some(response));
  }
}
