/**
 * The maintenance script `load_edit_groups`: for every `fedora_objects` row
 * it fetches the object `und:<pid>`, reads the edit groups of its
 * rightsMetadata, looks up each group's name (falling back to
 * `Group does not exist` instead of raising) and reconciles the object's
 * `fedora_object_edit_groups` rows with them. A failing object keeps its rows
 * and its error is collected; the loop goes on.
 *
 * Unlike the harvester, a group-name lookup never raises and a reader fault
 * while reading a group's title is only logged.
 */
module LoadEditGroups {
  import opened Wrappers
  import opened Faults
  import opened Fedora
  import opened Records
  import NTriples
  import Rights
  import Harvester

  const GroupDoesNotExist := "Group does not exist"

  /**
   * `get_group_name_for_pid`: `Group does not exist` when the group cannot
   * be fetched or (having been fetched) has no descMetadata; `''` when the
   * object being loaded has no descMetadata (the guard reads `@doc`, not the
   * group); otherwise the group's first non-empty title, or `''`.
   */
  function GroupNameFor(repo: Repository, doc: Document, groupPid: string): string {
    match Find(repo, groupPid)
    case Failure(_) => GroupDoesNotExist
    case Success(group) =>
      if doc.desc.None? then ""
      else if group.desc.None? then GroupDoesNotExist
      else
        var titles := NTriples.TripleValues(group.desc.value, "title", true);
        if |titles| > 0 then titles[0] else ""
  }

  /** `get_group_name_for_pid`, reading the group's title with `parse_triples` (a reader fault is only logged). */
  method GetGroupNameForPid(repo: Repository, doc: Document, groupPid: string) returns (name: string)
    ensures name == GroupNameFor(repo, doc, groupPid)
  {
    if groupPid !in repo {
      return GroupDoesNotExist;
    }
    var group := repo[groupPid];
    if doc.desc.None? {
      return "";
    }
    if group.desc.None? {
      return GroupDoesNotExist;
    }
    var titles, _ := NTriples.ParseTriples(group.desc.value, "title", true);
    name := if |titles| > 0 then titles[0] else "";
  }

  /**
   * `load_group_names_for`: one `{group_pid, group_name}` per pid, in the
   * order of the pids, each named by `get_group_name_for_pid`.
   */
  method LoadGroupNamesFor(repo: Repository, doc: Document, pids: seq<string>) returns (entries: seq<GroupEntry>)
    ensures |entries| == |pids|
    ensures forall i | 0 <= i < |pids| :: entries[i] == GroupEntry(pids[i], GroupNameFor(repo, doc, pids[i]))
  {
    entries := [];
    var i := 0;
    while i < |pids|
      invariant 0 <= i <= |pids|
      invariant |entries| == i
      invariant forall k | 0 <= k < i :: entries[k] == GroupEntry(pids[k], GroupNameFor(repo, doc, pids[k]))
    {
      var name := GetGroupNameForPid(repo, doc, pids[i]);
      entries := entries + [GroupEntry(pids[i], name)];
      i := i + 1;
    }
  }

  /** The entries `load_group_names_for` builds. */
  function GroupEntries(repo: Repository, doc: Document, pids: seq<string>): seq<GroupEntry> {
    seq(|pids|, i requires 0 <= i < |pids| => GroupEntry(pids[i], GroupNameFor(repo, doc, pids[i])))
  }

  /** Object `o` has at least one edit-group row. */
  predicate HasGroups(groups: set<EditGroup>, o: string) {
    exists r | r in groups :: r.objectPid == o
  }

  /** The edit-group rows after one object's visit, and whether it raised. */
  datatype Visit = Visit(groups: set<EditGroup>, outcome: Outcome<Fault>)

  /**
   * The body of the `find_each` loop for the object row `obj`: a missing
   * object raises; without rightsMetadata nothing is created, and the delete
   * pass (entered only when the object has rows) raises on the unset pid
   * list; a rightsMetadata without an edit `machine` raises; otherwise the
   * rows are reconciled with the loaded entries.
   */
  function VisitObject(groups: set<EditGroup>, repo: Repository, obj: ObjectRecord): (r: Visit)
    ensures r.outcome.Fail? ==> r.groups == groups
  {
    match Find(repo, Namespace + obj.pid)
    case Failure(f) => Visit(groups, Fail(f))
    case Success(doc) =>
      if doc.rights.None? then
        if HasGroups(groups, obj.pid) then Visit(groups, Fail(NilReceiver("edit_groups_array"))) else Visit(groups, Pass)
      else
        match Rights.EditGroups(doc.rights.value)
        case Failure(f) => Visit(groups, Fail(f))
        case Success(pids) => Visit(ReconciledGroups(groups, obj.pid, GroupEntries(repo, doc, pids)), Pass)
  }

  /** The rows and the collected errors after the objects of `order` were visited. */
  datatype Run = Run(groups: set<EditGroup>, exceptions: seq<ScriptError>)

  /** The error collected for a visit that raised. */
  function VisitErrors(obj: ObjectRecord, outcome: Outcome<Fault>): seq<ScriptError> {
    if outcome.Fail? then [ScriptError(obj.pid, outcome.error)] else []
  }

  /** `write_edit_groups_for_fedora_object` over the rows in `order`. */
  function LoadAll(groups: set<EditGroup>, objects: map<string, ObjectRecord>, repo: Repository, order: seq<string>): (r: Run)
    requires forall p | p in order :: p in objects
    ensures |r.exceptions| <= |order|
    decreases |order|
  {
    if order == [] then Run(groups, [])
    else
      var before := LoadAll(groups, objects, repo, order[..|order| - 1]);
      var obj := objects[order[|order| - 1]];
      var visit := VisitObject(before.groups, repo, obj);
      Run(visit.groups, before.exceptions + VisitErrors(obj, visit.outcome))
  }

  /** The body of the `find_each` loop, on the store. */
  method VisitRow(db: Store, repo: Repository, obj: ObjectRecord) returns (outcome: Outcome<Fault>)
    modifies db
    ensures var visit := VisitObject(old(db.editGroups), repo, obj);
      db.editGroups == visit.groups && outcome == visit.outcome
    ensures db.objects == old(db.objects) && db.aggregationKeys == old(db.aggregationKeys)
  {
    var pid := Namespace + obj.pid;
    if pid !in repo {
      return Fail(NotFound(pid));
    }
    var doc := repo[pid];
    if doc.rights.None? {
      if exists r | r in db.editGroups :: r.objectPid == obj.pid {
        return Fail(NilReceiver("edit_groups_array"));
      }
      return Pass;
    }
    var editGroupsArray := Rights.ParseEditGroups(doc.rights.value);
    if editGroupsArray.Failure? {
      return Fail(editGroupsArray.error);
    }
    var editGroupsList := LoadGroupNamesFor(repo, doc, editGroupsArray.value);
    assert editGroupsList == GroupEntries(repo, doc, editGroupsArray.value);
    db.ReconcileEditGroups(obj.pid, editGroupsList);
    outcome := Pass;
  }

  /**
   * `write_edit_groups_for_fedora_object`: visits the rows in `order` (the
   * order `find_each` yields them), rescuing and collecting each object's
   * error and going on with the next.
   */
  method WriteEditGroups(db: Store, repo: Repository, order: seq<string>) returns (exceptions: seq<ScriptError>)
    requires forall p | p in order :: p in db.objects
    modifies db
    ensures var run := LoadAll(old(db.editGroups), old(db.objects), repo, order);
      db.editGroups == run.groups && exceptions == run.exceptions
    ensures db.objects == old(db.objects) && db.aggregationKeys == old(db.aggregationKeys)
  {
    exceptions := [];
    var i := 0;
    while i < |order|
      invariant 0 <= i <= |order|
      invariant db.objects == old(db.objects) && db.aggregationKeys == old(db.aggregationKeys)
      invariant var run := LoadAll(old(db.editGroups), old(db.objects), repo, order[..i]);
        db.editGroups == run.groups && exceptions == run.exceptions
    {
      assert order[..i + 1][..i] == order[..i];
      var obj := db.objects[order[i]];
      var outcome := VisitRow(db, repo, obj);
      exceptions := exceptions + VisitErrors(obj, outcome);
      i := i + 1;
    }
    assert order[..i] == order;
  }

  /**
   * Where the harvester's `get_group_name_for_pid` raises (a missing group,
   * a group without descMetadata) the script falls back to
   * `Group does not exist`; where the harvester returns a name the script
   * returns the same, except that a group without a title is `''` here and
   * `Group name not found` there.
   */
  lemma AgreesWithHarvester(repo: Repository, doc: Document, groupPid: string)
    ensures Harvester.GroupName(repo, doc, groupPid).value.Failure? ==> GroupNameFor(repo, doc, groupPid) == GroupDoesNotExist
    ensures Harvester.GroupName(repo, doc, groupPid).value.Success? ==>
      var name := Harvester.GroupName(repo, doc, groupPid).value.value;
      || GroupNameFor(repo, doc, groupPid) == name
      || (GroupNameFor(repo, doc, groupPid) == "" && name == Harvester.GroupNameNotFound)
  {
  }

  /**
   * A visit that succeeds leaves a row for every loaded group, under its
   * stripped pid and loaded name, keeps a row of the object only if its pid
   * is among the stripped group pids, and leaves other objects' rows alone;
   * one that raises leaves every row as it was.
   */
  lemma VisitProperties(groups: set<EditGroup>, repo: Repository, obj: ObjectRecord)
    ensures var visit := VisitObject(groups, repo, obj);
      forall r: EditGroup | r.objectPid != obj.pid :: r in visit.groups <==> r in groups
    ensures var visit := VisitObject(groups, repo, obj);
      visit.groups != groups ==>
        && visit.outcome.Pass?
        && Namespace + obj.pid in repo
        && var doc := repo[Namespace + obj.pid];
        && doc.rights.Some? && Rights.EditGroups(doc.rights.value).Success?
        && var pids := Rights.EditGroups(doc.rights.value).value;
        && (forall i | 0 <= i < |pids| ::
              EditGroup(obj.pid, StripPid(pids[i]), GroupNameFor(repo, doc, pids[i])) in visit.groups)
        && (forall r | r in visit.groups && r.objectPid == obj.pid ::
              exists i | 0 <= i < |pids| :: r.groupPid == StripPid(pids[i]))
  {
    var visit := VisitObject(groups, repo, obj);
    var id := Namespace + obj.pid;
    if id in repo && repo[id].rights.Some? && Rights.EditGroups(repo[id].rights.value).Success? {
      var doc := repo[id];
      var pids := Rights.EditGroups(doc.rights.value).value;
      var entries := GroupEntries(repo, doc, pids);
      ReconciledGroupsProperties(groups, obj.pid, entries);
      forall i | 0 <= i < |pids|
        ensures EditGroup(obj.pid, StripPid(pids[i]), GroupNameFor(repo, doc, pids[i])) in visit.groups
      {
        assert entries[i] in entries;
      }
      forall r | r in visit.groups && r.objectPid == obj.pid
        ensures exists i | 0 <= i < |pids| :: r.groupPid == StripPid(pids[i])
      {
        var e :| e in entries && StripPid(e.groupPid) == r.groupPid;
        var i :| 0 <= i < |entries| && entries[i] == e;
        assert r.groupPid == StripPid(pids[i]);
      }
    }
  }

  /**
   * An object without rightsMetadata raises only when it already has rows,
   * and its rows are kept either way.
   */
  lemma NoRightsMetadata(groups: set<EditGroup>, repo: Repository, obj: ObjectRecord)
    requires Namespace + obj.pid in repo && repo[Namespace + obj.pid].rights.None?
    ensures VisitObject(groups, repo, obj).groups == groups
    ensures VisitObject(groups, repo, obj).outcome.Fail? <==> exists r | r in groups :: r.objectPid == obj.pid
  {
  }

  /**
   * Rows of objects the run does not visit are untouched, and every
   * collected error names a visited object together with the fault its
   * visit raised.
   */
  lemma {:induction false} RunProperties(groups: set<EditGroup>, objects: map<string, ObjectRecord>, repo: Repository, order: seq<string>)
    requires forall p | p in order :: p in objects
    ensures forall r: EditGroup | (forall p | p in order :: objects[p].pid != r.objectPid) ::
      r in LoadAll(groups, objects, repo, order).groups <==> r in groups
    ensures forall e | e in LoadAll(groups, objects, repo, order).exceptions ::
      exists p | p in order :: objects[p].pid == e.pid
    decreases |order|
  {
    if order != [] {
      var init := order[..|order| - 1];
      var last := order[|order| - 1];
      var before := LoadAll(groups, objects, repo, init);
      RunProperties(groups, objects, repo, init);
      VisitProperties(before.groups, repo, objects[last]);
      forall e | e in LoadAll(groups, objects, repo, order).exceptions
        ensures exists p | p in order :: objects[p].pid == e.pid
      {
        if e in before.exceptions {
          var p :| p in init && objects[p].pid == e.pid;
          assert p in order;
        } else {
          assert last in order;
        }
      }
      forall r: EditGroup | (forall p | p in order :: objects[p].pid != r.objectPid)
        ensures r in LoadAll(groups, objects, repo, order).groups <==> r in groups
      {
        assert last in order;
      }
    }
  }
}
