/**
 * The maintenance script `update_parent_type`: for every `fedora_objects`
 * row it works out the type of the object's parent and saves it in
 * `parent_type`. A GenericFile takes the `af_model` of its parent's row, or,
 * when the table has no such row, the model of the `isPartOf` target fetched
 * from the repository; every other object is its own parent. A failing row
 * is left as it was and its error is collected.
 *
 * The script only writes `parent_type` (and, through ActiveRecord,
 * `updated_at`), and reads only `pid`, `af_model` and `parent_pid`, so the
 * type computed for a row depends only on the table as it was before the run.
 */
module UpdateParentType {
  import opened Wrappers
  import opened Text
  import opened Faults
  import opened Fedora
  import opened Records
  import RelsExt

  const GenericFile := "GenericFile"

  /**
   * The repository branch for object `pid`: fetch `und:pid` (a missing one
   * raises), read its RELS-EXT (`content` on a missing datastream raises
   * `NoMethodError`), then fetch the `isPartOf` target (`nil.to_s` is `''`)
   * and read its model, `Unknown` when it names none.
   */
  function FetchedThroughRelsExt(repo: Repository, pid: string): Result<Option<string>, Fault> {
    match Find(repo, Namespace + pid)
    case Failure(f) => Failure(f)
    case Success(doc) =>
      if doc.relsExt.None? then Failure(NilReceiver("RELS-EXT"))
      else FetchedParentType(repo, RelsExt.RelationTarget(doc.relsExt.value, "isPartOf").GetOr(""))
  }

  /**
   * The parent type the script computes for `row`: its own `af_model` unless
   * it is a GenericFile; for a GenericFile, the `af_model` of the row whose
   * pid is its `parent_pid`, and the repository branch when there is none.
   */
  function NewParentType(objects: map<string, ObjectRecord>, repo: Repository, row: ObjectRecord): Result<Option<string>, Fault> {
    if row.afModel != GenericFile then Success(Some(row.afModel))
    else if row.parentPid in objects then Success(Some(objects[row.parentPid].afModel))
    else FetchedThroughRelsExt(repo, row.pid)
  }

  /**
   * The row after `obj.save!`: unchanged when the computation raised or found
   * the type already stored (ActiveRecord then saves nothing), otherwise with
   * the new `parent_type` and `updated_at` moved to `now`. Nothing else in
   * the row changes.
   */
  function Retyped(objects: map<string, ObjectRecord>, repo: Repository, row: ObjectRecord, now: int): (r: ObjectRecord)
    ensures r == row.(parentType := r.parentType, updatedAt := r.updatedAt)
    ensures r != row ==> NewParentType(objects, repo, row) == Success(r.parentType) && r.updatedAt == now
    ensures NewParentType(objects, repo, row).Success? ==> r.parentType == NewParentType(objects, repo, row).value
  {
    match NewParentType(objects, repo, row)
    case Failure(_) => row
    case Success(t) => if row.parentType == t then row else row.(parentType := t, updatedAt := now)
  }

  /** The error collected for `row`, if its parent type could not be computed. */
  function RowErrors(objects: map<string, ObjectRecord>, repo: Repository, row: ObjectRecord): seq<ScriptError> {
    match NewParentType(objects, repo, row)
    case Failure(f) => [ScriptError(row.pid, f)]
    case Success(_) => []
  }

  /** The errors collected over the rows visited in `order`, in that order. */
  function Errors(objects: map<string, ObjectRecord>, repo: Repository, order: seq<string>): (r: seq<ScriptError>)
    requires forall p | p in order :: p in objects
    ensures |r| <= |order|
    decreases |order|
  {
    if order == [] then []
    else
      var init := order[..|order| - 1];
      Errors(objects, repo, init) + RowErrors(objects, repo, objects[order[|order| - 1]])
  }

  /**
   * Lines 25-31: the repository branch, with `parse_xml_relsext` reading the
   * fetched object's RELS-EXT.
   */
  method FetchParentType(repo: Repository, pid: string) returns (r: Result<Option<string>, Fault>)
    ensures r == FetchedThroughRelsExt(repo, pid)
  {
    var id := Namespace + pid;
    if id !in repo {
      return Failure(NotFound(id));
    }
    var doc := repo[id];
    if doc.relsExt.None? {
      return Failure(NilReceiver("RELS-EXT"));
    }
    var parentPid := RelsExt.ParseXmlRelsext(doc.relsExt.value, "isPartOf");
    r := FetchedParentType(repo, parentPid.GetOr(""));
  }

  /** No pid is visited twice. */
  predicate EachOnce(order: seq<string>) {
    forall i, j | 0 <= i < j < |order| :: order[i] != order[j]
  }

  /** The two tables hold the same pids, with the same `af_model` under each. */
  predicate SameModels(objects: map<string, ObjectRecord>, start: map<string, ObjectRecord>) {
    objects.Keys == start.Keys && forall p | p in start :: objects[p].afModel == start[p].afModel
  }

  /**
   * The body of the `find_each` loop for the row `pid` (lines 17-39), on a
   * table whose `af_model`s are those of `start` and whose row `pid` is still
   * the one in `start`: the row is saved as `Retyped` and its error returned.
   */
  method VisitRow(db: Store, ghost start: map<string, ObjectRecord>, repo: Repository, pid: string, now: int)
    returns (errors: seq<ScriptError>)
    requires SameModels(db.objects, start) && pid in start && db.objects[pid] == start[pid]
    modifies db
    ensures db.objects == old(db.objects)[pid := Retyped(start, repo, start[pid], now)]
    ensures errors == RowErrors(start, repo, start[pid])
    ensures db.aggregationKeys == old(db.aggregationKeys) && db.editGroups == old(db.editGroups)
  {
    var obj := db.objects[pid];
    var parentType: Result<Option<string>, Fault>;
    if obj.afModel == GenericFile {
      if obj.parentPid in db.objects {
        parentType := Success(Some(db.objects[obj.parentPid].afModel));
      } else {
        parentType := FetchParentType(repo, obj.pid);
      }
    } else {
      parentType := Success(Some(obj.afModel));
    }
    errors := [];
    match parentType {
      case Failure(f) =>
        errors := [ScriptError(obj.pid, f)];
      case Success(t) =>
        if obj.parentType != t {
          obj := obj.(parentType := t, updatedAt := now);
        }
    }
    db.objects := db.objects[pid := obj];
  }

  /**
   * `update_parent_type`: visits the rows in `order` (the order `find_each`
   * yields them, each row once), saves each computed parent type and collects
   * each failure. Every visited row ends as `Retyped` of its original, every
   * other row is untouched, and the errors are those of the failing rows in
   * visiting order.
   */
  method UpdateParentTypes(db: Store, repo: Repository, order: seq<string>, now: int) returns (exceptions: seq<ScriptError>)
    requires EachOnce(order)
    requires forall p | p in order :: p in db.objects
    modifies db
    ensures db.objects.Keys == old(db.objects).Keys
    ensures forall p | p in old(db.objects) ::
      db.objects[p] == if p in order then Retyped(old(db.objects), repo, old(db.objects)[p], now) else old(db.objects)[p]
    ensures exceptions == Errors(old(db.objects), repo, order)
    ensures db.aggregationKeys == old(db.aggregationKeys) && db.editGroups == old(db.editGroups)
  {
    ghost var start := db.objects;
    exceptions := [];
    var i := 0;
    while i < |order|
      invariant 0 <= i <= |order|
      invariant SameModels(db.objects, start)
      invariant RetypedUpTo(db.objects, start, repo, order[..i], now)
      invariant exceptions == Errors(start, repo, order[..i])
      invariant db.aggregationKeys == old(db.aggregationKeys) && db.editGroups == old(db.editGroups)
    {
      RetypeStep(db.objects, start, repo, order, i, now);
      var errors := VisitRow(db, start, repo, order[i], now);
      exceptions := exceptions + errors;
      i := i + 1;
    }
    assert order[..i] == order;
  }

  /** The rows of `visited` are retyped, the others as in `start`. */
  predicate RetypedUpTo(objects: map<string, ObjectRecord>, start: map<string, ObjectRecord>, repo: Repository, visited: seq<string>, now: int) {
    && objects.Keys == start.Keys
    && forall p | p in start :: objects[p] == if p in visited then Retyped(start, repo, start[p], now) else start[p]
  }

  /** Visiting the next row in `order` retypes it and collects its error. */
  lemma RetypeStep(objects: map<string, ObjectRecord>, start: map<string, ObjectRecord>, repo: Repository, order: seq<string>, i: nat, now: int)
    requires i < |order| && EachOnce(order)
    requires forall p | p in order :: p in start
    requires RetypedUpTo(objects, start, repo, order[..i], now)
    ensures objects[order[i]] == start[order[i]]
    ensures
      var row := Retyped(start, repo, start[order[i]], now);
      && RetypedUpTo(objects[order[i] := row], start, repo, order[..i + 1], now)
      && SameModels(objects[order[i] := row], start)
      && Errors(start, repo, order[..i + 1]) == Errors(start, repo, order[..i]) + RowErrors(start, repo, start[order[i]])
  {
    assert order[..i + 1] == order[..i] + [order[i]];
    assert order[..i + 1][..i] == order[..i];
    assert order[i] !in order[..i];
  }

  /** A row that is not a GenericFile gets its own `af_model`, whatever the table and repository hold. */
  lemma OtherModelsAreTheirOwnParent(objects: map<string, ObjectRecord>, repo: Repository, row: ObjectRecord, now: int)
    requires row.afModel != GenericFile
    ensures Retyped(objects, repo, row, now).parentType == Some(row.afModel)
  {
  }

  /**
   * A GenericFile whose parent row exists takes that row's `af_model`, and
   * the repository is not consulted: any two repositories give the same
   * result.
   */
  lemma CachedParentNeedsNoFetch(objects: map<string, ObjectRecord>, repo: Repository, other: Repository, row: ObjectRecord)
    requires row.afModel == GenericFile && row.parentPid in objects
    ensures NewParentType(objects, repo, row) == NewParentType(objects, other, row) == Success(Some(objects[row.parentPid].afModel))
  {
  }

  /**
   * Without a parent row, a GenericFile whose RELS-EXT names a parent held by
   * the repository gets `Unknown` exactly when the parent's profile names no
   * afmodel, and the model name of its first afmodel entry otherwise.
   */
  lemma FetchedParentRule(objects: map<string, ObjectRecord>, repo: Repository, row: ObjectRecord)
    requires row.afModel == GenericFile && row.parentPid !in objects
    requires Namespace + row.pid in repo && repo[Namespace + row.pid].relsExt.Some?
    requires RelsExt.RelationTarget(repo[Namespace + row.pid].relsExt.value, "isPartOf").GetOr("") in repo
    ensures
      var parent := repo[RelsExt.RelationTarget(repo[Namespace + row.pid].relsExt.value, "isPartOf").GetOr("")];
      && ((forall j | 0 <= j < |parent.profile.models| :: !Contains(parent.profile.models[j], "afmodel"))
            ==> NewParentType(objects, repo, row) == Success(Some("Unknown")))
      && ((exists j | 0 <= j < |parent.profile.models| :: Contains(parent.profile.models[j], "afmodel"))
            ==> NewParentType(objects, repo, row) == Success(ModelName(parent.profile.models)))
  {
    var target := RelsExt.RelationTarget(repo[Namespace + row.pid].relsExt.value, "isPartOf").GetOr("");
    FetchedParentTypeUnknown(repo, target);
  }

  /**
   * A GenericFile without a parent row whose object has no RELS-EXT fails
   * (the `Unknown` assigned on line 26 is never saved), and so does one
   * whose object or parent the repository does not hold.
   */
  lemma FetchFailures(objects: map<string, ObjectRecord>, repo: Repository, row: ObjectRecord, now: int)
    requires row.afModel == GenericFile && row.parentPid !in objects
    ensures Namespace + row.pid !in repo ==> NewParentType(objects, repo, row) == Failure(NotFound(Namespace + row.pid))
    ensures Namespace + row.pid in repo && repo[Namespace + row.pid].relsExt.None? ==>
      NewParentType(objects, repo, row) == Failure(NilReceiver("RELS-EXT")) && Retyped(objects, repo, row, now) == row
    ensures Namespace + row.pid in repo && repo[Namespace + row.pid].relsExt.Some? ==>
      var target := RelsExt.RelationTarget(repo[Namespace + row.pid].relsExt.value, "isPartOf").GetOr("");
      target !in repo ==> NewParentType(objects, repo, row) == Failure(NotFound(target))
  {
  }

  /**
   * No error is collected exactly when every visited row's parent type could
   * be computed; each collected error names a visited row and its fault.
   */
  lemma {:induction false} ErrorsAreTheFailures(objects: map<string, ObjectRecord>, repo: Repository, order: seq<string>)
    requires forall p | p in order :: p in objects
    ensures Errors(objects, repo, order) == [] <==> forall p | p in order :: NewParentType(objects, repo, objects[p]).Success?
    ensures forall e | e in Errors(objects, repo, order) ::
      exists p | p in order :: objects[p].pid == e.pid && NewParentType(objects, repo, objects[p]) == Failure(e.cause)
    decreases |order|
  {
    if order != [] {
      var init := order[..|order| - 1];
      var last := order[|order| - 1];
      assert order == init + [last];
      ErrorsAreTheFailures(objects, repo, init);
      forall e | e in Errors(objects, repo, order)
        ensures exists p | p in order :: objects[p].pid == e.pid && NewParentType(objects, repo, objects[p]) == Failure(e.cause)
      {
        if e in Errors(objects, repo, init) {
          var p :| p in init && objects[p].pid == e.pid && NewParentType(objects, repo, objects[p]) == Failure(e.cause);
          assert p in order;
        } else {
          assert e in RowErrors(objects, repo, objects[last]);
        }
      }
    }
  }

  /** Running the script a second time computes the same types and changes no row. */
  lemma SecondRunChangesNothing(objects: map<string, ObjectRecord>, repo: Repository, now: int, later: int)
    ensures
      var after := map p | p in objects :: Retyped(objects, repo, objects[p], now);
      forall p | p in after :: Retyped(after, repo, after[p], later) == after[p]
  {
    var after := map p | p in objects :: Retyped(objects, repo, objects[p], now);
    forall p | p in after
      ensures Retyped(after, repo, after[p], later) == after[p]
    {
      var row := objects[p];
      assert NewParentType(after, repo, after[p]) == NewParentType(objects, repo, row) by {
        if row.afModel == GenericFile && row.parentPid in objects {
          assert after[row.parentPid].afModel == objects[row.parentPid].afModel;
        }
      }
    }
  }
}
