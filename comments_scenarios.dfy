/**
 * End-to-end runs of the comment service on a fresh store, each stating the
 * status codes it answers with.
 */
module CommentsScenarios {
  import opened Wrappers
  import opened CommentsService
  import Text

  /** A fresh store with one user, one task and one project, and a comment the
      user created on the task. */
  method CommentOnTask(userId: string, taskId: string, projectId: string) returns (db: Database, status: int)
    requires userId != "" && taskId != "" && projectId != ""
    ensures fresh(db) && db.Valid()
    ensures db.users == {userId} && db.tasks == {taskId} && db.projects == {projectId}
    ensures db.comments.Keys == {0} && db.comments[0].creatorId == userId
    ensures db.taskLinks == [Link(0, taskId)] && db.projectLinks == []
    ensures status == 201
  {
    db := new Database({userId}, {taskId}, {projectId});
    assert !Text.AllWhitespace("Looks good") by { assert !Text.IsWhitespace("Looks good"[0]); }
    var created := Create(db, CommentInput(Some("Looks good"), Some(userId), Some(taskId), None));
    status := created.httpStatus;
  }

  /** A comment created on a task is listed for that task. */
  method ListedOnTask(userId: string, taskId: string, projectId: string) returns (statuses: seq<int>)
    requires userId != "" && taskId != "" && projectId != ""
    ensures statuses == [201, 200]
  {
    var db, created := CommentOnTask(userId, taskId, projectId);
    var onTask := GetByTaskId(db, taskId);
    assert db.taskLinks[0].targetId == taskId;
    statuses := [created, onTask.httpStatus];
  }

  /** A comment created on a task and then moved to a project: the task no longer
      lists it and the project does. */
  method Retarget(userId: string, taskId: string, projectId: string) returns (statuses: seq<int>)
    requires userId != "" && taskId != "" && projectId != ""
    ensures statuses == [201, 200, 404, 200]
  {
    var db, created := CommentOnTask(userId, taskId, projectId);
    var id := 0;
    assert TargetsOf(db.taskLinks, id) == [taskId];
    var moved := Update(db, id, CommentInput(None, Some(userId), None, Some(projectId)));
    assert moved.httpStatus == 200;
    assert Unlinked([Link(0, taskId)], 0) == [];
    assert db.taskLinks == [] && db.projectLinks == [Link(0, projectId)];
    var goneFromTask := GetByTaskId(db, taskId);
    var onProject := GetByProjectId(db, projectId);
    assert db.projectLinks[0].targetId == projectId;
    statuses := [created, moved.httpStatus, goneFromTask.httpStatus, onProject.httpStatus];
  }

  /** A deleted comment is gone, and so are its links. */
  method CreateThenDelete(userId: string, projectId: string) returns (statuses: seq<int>)
    requires userId != "" && projectId != ""
    ensures statuses == [201, 204, 404, 404, 404]
  {
    var db := new Database({userId}, {}, {projectId});
    assert !Text.AllWhitespace("Draft") by { assert !Text.IsWhitespace("Draft"[0]); }
    var created := Create(db, CommentInput(Some("Draft"), Some(userId), None, Some(projectId)));
    assert created.httpStatus == 201;
    assert db.projectLinks == [Link(0, projectId)] && 0 in db.comments;
    var id := 0;
    var deleted := Delete(db, id);
    assert deleted.httpStatus == 204;
    assert Unlinked([Link(0, projectId)], 0) == [];
    assert db.projectLinks == [];
    var fetched := GetById(db, id);
    var listed := GetByProjectId(db, projectId);
    var deletedAgain := Delete(db, id);
    statuses := [created.httpStatus, deleted.httpStatus, fetched.httpStatus, listed.httpStatus, deletedAgain.httpStatus];
  }

  /** Create's input errors and missing rows: no target, both targets, an
      unknown creator; none of them writes anything. */
  method CreateRejections(userId: string, taskId: string, projectId: string) returns (statuses: seq<int>)
    requires userId != "" && taskId != "" && projectId != ""
    requires userId != "ghost"
    ensures statuses == [400, 400, 404]
  {
    var db := new Database({userId}, {taskId}, {projectId});
    assert !Text.AllWhitespace("x") by { assert !Text.IsWhitespace("x"[0]); }
    var noTargetInput := CommentInput(Some("x"), Some(userId), None, None);
    assert ValidateCreate(noTargetInput) == Some(ExactlyOneTarget);
    var noTarget := Create(db, noTargetInput);
    var bothInput := CommentInput(Some("x"), Some(userId), Some(taskId), Some(projectId));
    assert ValidateCreate(bothInput) == Some(ExactlyOneTarget);
    var bothTargets := Create(db, bothInput);
    var ghostInput := CommentInput(Some("x"), Some("ghost"), Some(taskId), None);
    assert ValidateCreate(ghostInput).None? && !db.CreateRowsExist(ghostInput);
    var unknownUser := Create(db, ghostInput);
    assert db.nextId == 0 && db.comments == map[];
    statuses := [noTarget.httpStatus, bothTargets.httpStatus, unknownUser.httpStatus];
  }

  /** On update, `taskId: ""` against a comment linked to a task is refused,
      although leaving `taskId` out is accepted. */
  method EmptyTaskIdOnUpdate(userId: string, taskId: string) returns (statuses: seq<int>)
    requires userId != "" && taskId != ""
    ensures statuses == [201, 400, 200]
  {
    var db := new Database({userId}, {taskId}, {});
    assert !Text.AllWhitespace("x") by { assert !Text.IsWhitespace("x"[0]); }
    assert !Text.AllWhitespace("y") by { assert !Text.IsWhitespace("y"[0]); }
    var createInput := CommentInput(Some("x"), Some(userId), Some(taskId), None);
    assert ValidateCreate(createInput).None? && db.CreateRowsExist(createInput);
    var created := Create(db, createInput);
    assert db.taskLinks == [Link(0, taskId)] && db.projectLinks == [] && 0 in db.comments;
    var id := 0;
    assert TargetsOf(db.taskLinks, id) == [taskId] && TargetsOf(db.projectLinks, id) == [];
    EmptyTaskIdDropsExistingTask(taskId);
    var emptyInput := CommentInput(Some("y"), Some(userId), Some(""), None);
    assert ValidateUpdate(emptyInput).None?;
    assert UpdateTarget(emptyInput, db.taskLinks, db.projectLinks, id).None?;
    var emptyTaskId := Update(db, id, emptyInput);
    assert TargetsOf(db.taskLinks, id) == [taskId] && TargetsOf(db.projectLinks, id) == [];
    var absentInput := CommentInput(Some("y"), Some(userId), None, None);
    assert ValidateUpdate(absentInput).None?;
    assert UpdateTarget(absentInput, db.taskLinks, db.projectLinks, id) == Some(OnTask(taskId));
    assert db.HasTarget(OnTask(taskId)) && id in db.comments && userId in db.users;
    var noTaskId := Update(db, id, absentInput);
    statuses := [created.httpStatus, emptyTaskId.httpStatus, noTaskId.httpStatus];
  }
}
