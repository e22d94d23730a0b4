/**
 * The Fedora metadata harvester (`FedoraObjectHarvester` and its
 * `SingleItem`): for each document a search returns it derives the reporting
 * record, decides whether to write it, writes it, reconciles the object's
 * aggregation keys and edit groups, and collects every fault as a
 * pid-tagged error.
 *
 * The pure rules are functions over a `World`, the contents of the three
 * tables; the harvester itself is a class whose methods update a `Store` and
 * its own exception list, each proved to produce what the rules say.
 */
module Harvester {
  import opened Wrappers
  import opened Text
  import opened RubyInspect
  import opened Faults
  import opened Fedora
  import opened Records
  import NTriples
  import Rights
  import RelsExt
  import opened Rdf

  const GenericFile := "GenericFile"
  const Unknown := "Unknown"
  const DefaultMimetype := "application/octet-stream"
  const GroupNameNotFound := "Group name not found"
  /** `title.slice(0, 254)`. */
  const TitleLimit := 254
  /** `predicate_names`, in the order the reconciler visits them. */
  const PredicateNames := ["creator#administrative_unit", "creator#affiliation"]

  /** The contents of the three tables. */
  datatype World = World(objects: map<string, ObjectRecord>, keys: set<AggregationKey>, groups: set<EditGroup>)

  /** A computed value or the fault that stopped it, with the reader faults recorded on the way. */
  datatype Reading<T> = Reading(value: Result<T, Fault>, notes: seq<HarvestError>)

  /** What one step leaves: the tables, the errors recorded, and whether it raised. */
  datatype Step = Step(world: World, notes: seq<HarvestError>, outcome: Outcome<Fault>)

  /** The attribute hash passed to `update!`; `af_model` and `resource_type` may be nil. */
  datatype Attributes = Attributes(
    afModel: Option<string>,
    resourceType: Option<string>,
    mimetype: string,
    bytes: int,
    parentPid: string,
    parentType: Option<string>,
    ingestDate: int,
    modifiedDate: int,
    accessRights: string,
    title: string)

  function Lookup(objects: map<string, ObjectRecord>, pid: string): Option<ObjectRecord> {
    if pid in objects then Some(objects[pid]) else None
  }

  /** `SingleItem#pid`: the document's pid without its `und:`. */
  function ItemPid(doc: Document): string {
    StripPid(doc.pid)
  }

  predicate IsGenericFile(doc: Document) {
    AfModel(doc) == Some(GenericFile)
  }

  /**
   * The error `parse_triples` pushes onto the harvester's exceptions when the
   * reader raises: tagged with the item's stripped pid.
   */
  function Note(doc: Document, fault: bool): seq<HarvestError> {
    if fault then [HarvestError(ItemPid(doc), ReaderError)] else []
  }

  /** `parse_triples` on the item's descMetadata, `[]` when it has none. */
  function DescValues(doc: Document, key: string): seq<string> {
    if doc.desc.None? then [] else NTriples.TripleValues(doc.desc.value, key, true)
  }

  /** Reading the item's descMetadata for `key` runs into a reader fault. */
  predicate DescFault(doc: Document, key: string) {
    doc.desc.Some? && NTriples.Faults(doc.desc.value, key)
  }

  /** `resource_type`: the first `dc/terms/type` value unless it is blank, else `af_model`. */
  function ResourceType(doc: Document): Option<string> {
    var types := DescValues(doc, "type");
    if |types| > 0 && !IsBlank(types[0]) then Some(types[0]) else AfModel(doc)
  }

  /** `mimetype`: `''` without a content datastream, its `mimeType || DEFAULT_MIMETYPE` otherwise. */
  function Mimetype(doc: Document): string {
    if doc.content.None? then "" else doc.content.value.mimeType.GetOr(DefaultMimetype)
  }

  /** `bytes`: `0` without a content datastream, its `size || 0` otherwise. */
  function Bytes(doc: Document): int {
    if doc.content.None? then 0 else doc.content.value.size.GetOr(0)
  }

  /** `extract_parent_pid_from_doc`: the `isPartOf` target in RELS-EXT. */
  function ParentTarget(doc: Document): Option<string>
    requires doc.relsExt.Some?
  {
    RelsExt.RelationTarget(doc.relsExt.value, "isPartOf")
  }

  /**
   * `parent_pid`: for a GenericFile with a non-blank `isPartOf` target, the
   * stripped target; otherwise (another model, no RELS-EXT, an orphan) the
   * object's own pid.
   */
  function ParentPid(doc: Document): string {
    if !IsGenericFile(doc) || doc.relsExt.None? then ItemPid(doc)
    else
      var parent := ParentTarget(doc);
      if IsBlankOrNil(parent) then ItemPid(doc) else StripPid(parent.value)
  }

  /**
   * `parent_type`: for a GenericFile, the `af_model` of the parent's row when
   * the table has one, `Unknown` without RELS-EXT, and otherwise the type
   * fetched from the repository for the unstripped target (`nil.to_s` is
   * `''`). Any other model is its own parent type.
   */
  function ParentType(objects: map<string, ObjectRecord>, repo: Repository, doc: Document): Result<Option<string>, Fault> {
    if !IsGenericFile(doc) then Success(AfModel(doc))
    else if ParentPid(doc) in objects then Success(Some(objects[ParentPid(doc)].afModel))
    else if doc.relsExt.None? then Success(Some(Unknown))
    else FetchedParentType(repo, ParentTarget(doc).GetOr(""))
  }

  /**
   * `title`: for a GenericFile the content label (`''` without content; a
   * nil label raises on `slice`), otherwise the first `dc/terms/title` value
   * or `''`.
   */
  function Title(doc: Document): Result<string, Fault> {
    if IsGenericFile(doc) then
      if doc.content.None? then Success("")
      else if doc.content.value.dsLabel.None? then Failure(NilReceiver("label"))
      else Success(doc.content.value.dsLabel.value)
    else
      var titles := DescValues(doc, "title");
      Success(if |titles| > 0 then titles[0] else "")
  }

  /** Reading the title parses the descMetadata and runs into a reader fault. */
  predicate TitleFault(doc: Document) {
    !IsGenericFile(doc) && DescFault(doc, "title")
  }

  /** `access_rights`: `private` without rightsMetadata, `parse_xml_rights` otherwise. */
  function AccessRights(doc: Document, today: int): Result<string, Fault> {
    if doc.rights.None? then Success(Rights.Private) else Rights.XmlRights(doc.rights.value, today)
  }

  /**
   * The `update!` hash, evaluated in its own order: `resource_type` (which
   * may record a reader fault), then `parent_type` and `access_rights`
   * (either may raise), then `title` (which may record a reader fault or
   * raise), cut to 254 characters.
   */
  function Derive(objects: map<string, ObjectRecord>, repo: Repository, doc: Document, today: int): Reading<Attributes> {
    var typeNotes := Note(doc, DescFault(doc, "type"));
    match ParentType(objects, repo, doc)
    case Failure(f) => Reading(Failure(f), typeNotes)
    case Success(parentType) =>
      match AccessRights(doc, today)
      case Failure(f) => Reading(Failure(f), typeNotes)
      case Success(rights) =>
        var notes := typeNotes + Note(doc, TitleFault(doc));
        match Title(doc)
        case Failure(f) => Reading(Failure(f), notes)
        case Success(title) =>
          Reading(Success(Attributes(AfModel(doc), ResourceType(doc), Mimetype(doc), Bytes(doc),
                                     ParentPid(doc), parentType, doc.profile.createDate,
                                     doc.profile.lastModified, rights, Take(title, TitleLimit))),
                  notes)
  }

  /**
   * The row `update!` leaves for `pid`: the new attributes, with `updated_at`
   * moved to `now` unless the row already held exactly these attributes
   * (then nothing is saved).
   */
  function Written(row: Option<ObjectRecord>, pid: string, a: Attributes, now: int): ObjectRecord
    requires a.afModel.Some? && a.resourceType.Some?
  {
    var rewritten := ObjectRecord(pid, a.afModel.value, a.resourceType.value, a.mimetype, a.bytes,
                              a.parentPid, a.parentType, a.ingestDate, a.modifiedDate,
                              a.accessRights, a.title, now);
    if row.Some? && row.value.(updatedAt := now) == rewritten then row.value else rewritten
  }

  /** The aggregation-key rows after reconciling each predicate in turn. */
  function KeysAfter(keys: set<AggregationKey>, doc: Document, predicates: seq<string>): set<AggregationKey>
    decreases |predicates|
  {
    if predicates == [] then keys
    else
      var p := predicates[|predicates| - 1];
      ReconciledKeys(KeysAfter(keys, doc, predicates[..|predicates| - 1]), ItemPid(doc), p, DescValues(doc, p))
  }

  /** The reader faults recorded while reading the predicates' keys. */
  function KeyNotes(doc: Document, predicates: seq<string>): (r: seq<HarvestError>)
    ensures |r| <= |predicates|
    decreases |predicates|
  {
    if predicates == [] then []
    else
      var p := predicates[|predicates| - 1];
      KeyNotes(doc, predicates[..|predicates| - 1]) + Note(doc, DescFault(doc, p))
  }

  /** One more predicate read: its keys reconciled and its reader fault noted. */
  lemma KeyStep(keys: set<AggregationKey>, doc: Document, predicates: seq<string>, i: nat)
    requires i < |predicates|
    ensures KeysAfter(keys, doc, predicates[..i + 1])
      == ReconciledKeys(KeysAfter(keys, doc, predicates[..i]), ItemPid(doc), predicates[i], DescValues(doc, predicates[i]))
    ensures KeyNotes(doc, predicates[..i + 1]) == KeyNotes(doc, predicates[..i]) + Note(doc, DescFault(doc, predicates[i]))
  {
    assert predicates[..i + 1][..i] == predicates[..i];
  }

  /** `parse_edit_groups` on the rightsMetadata, `[]` when it has none. */
  function EditGroupPids(doc: Document): Result<seq<string>, Fault> {
    if doc.rights.None? then Success([]) else Rights.EditGroups(doc.rights.value)
  }

  /**
   * `get_group_name_for_pid`: the group is fetched first (a missing one
   * raises); the name is `''` when the item itself has no descMetadata, the
   * group's first title otherwise, or `Group name not found`; a group with
   * no descMetadata raises.
   */
  function GroupName(repo: Repository, doc: Document, groupPid: string): Reading<string> {
    match Find(repo, groupPid)
    case Failure(f) => Reading(Failure(f), [])
    case Success(group) =>
      if doc.desc.None? then Reading(Success(""), [])
      else if group.desc.None? then Reading(Failure(NilReceiver("descMetadata")), [])
      else
        var titles := NTriples.TripleValues(group.desc.value, "title", true);
        Reading(Success(if |titles| > 0 then titles[0] else GroupNameNotFound),
                Note(doc, NTriples.Faults(group.desc.value, "title")))
  }

  /**
   * `load_group_names_for`: one entry per group pid, in order, or the first
   * fault, with the reader faults recorded up to it.
   */
  function GroupNames(repo: Repository, doc: Document, pids: seq<string>): (r: Reading<seq<GroupEntry>>)
    ensures r.value.Success? ==> |r.value.value| == |pids|
    ensures r.value.Success? ==> forall i | 0 <= i < |pids| :: r.value.value[i].groupPid == pids[i]
    ensures r.value.Success? ==> forall i | 0 <= i < |pids| :: GroupName(repo, doc, pids[i]).value == Success(r.value.value[i].groupName)
    ensures r.value.Failure? ==> r.value.error != ReaderError
    ensures forall e | e in r.notes :: e == HarvestError(ItemPid(doc), ReaderError)
    decreases |pids|
  {
    if pids == [] then Reading(Success([]), [])
    else
      var init := GroupNames(repo, doc, pids[..|pids| - 1]);
      if init.value.Failure? then init
      else
        var last := GroupName(repo, doc, pids[|pids| - 1]);
        match last.value
        case Failure(f) => Reading(Failure(f), init.notes + last.notes)
        case Success(name) => Reading(Success(init.value.value + [GroupEntry(pids[|pids| - 1], name)]), init.notes + last.notes)
  }

  /**
   * `fedora_update`: write the row, reconcile the keys of both predicates,
   * then load the edit groups and reconcile them. A fault stops the update
   * where it is raised; whatever was written before it stays.
   */
  function Update(w: World, repo: Repository, doc: Document, today: int, now: int): Step {
    Apply(w, repo, doc, Derive(w.objects, repo, doc, today), now)
  }

  /** The rest of `fedora_update` once the attribute hash `d` has been read. */
  function Apply(w: World, repo: Repository, doc: Document, d: Reading<Attributes>, now: int): Step {
    if d.value.Failure? then Step(w, d.notes, Fail(d.value.error))
    else if d.value.value.afModel.None? then Step(w, d.notes, Fail(NullColumn("af_model")))
    else if d.value.value.resourceType.None? then Step(w, d.notes, Fail(NullColumn("resource_type")))
    else
      var pid := ItemPid(doc);
      var objects := w.objects[pid := Written(Lookup(w.objects, pid), pid, d.value.value, now)];
      var written := World(objects, KeysAfter(w.keys, doc, PredicateNames), w.groups);
      var groups := GroupStep(written, repo, doc);
      Step(groups.world, d.notes + KeyNotes(doc, PredicateNames) + groups.notes, groups.outcome)
  }

  /**
   * The edit-group part of `fedora_update`: parse the edit groups, load
   * their names, reconcile the rows; a fault leaves the rows as they were.
   */
  function GroupStep(w: World, repo: Repository, doc: Document): Step {
    match EditGroupPids(doc)
    case Failure(f) => Step(w, [], Fail(f))
    case Success(pids) =>
      var names := GroupNames(repo, doc, pids);
      match names.value
      case Failure(f) => Step(w, names.notes, Fail(f))
      case Success(entries) => Step(w.(groups := ReconciledGroups(w.groups, ItemPid(doc), entries)), names.notes, Pass)
  }

  /** Once a prefix of the group pids fails, the whole list fails the same way. */
  lemma {:induction false} GroupNamesFailurePersists(repo: Repository, doc: Document, pids: seq<string>, k: nat)
    requires k <= |pids| && GroupNames(repo, doc, pids[..k]).value.Failure?
    ensures GroupNames(repo, doc, pids) == GroupNames(repo, doc, pids[..k])
    decreases |pids|
  {
    if k < |pids| {
      var init := pids[..|pids| - 1];
      assert init[..k] == pids[..k];
      GroupNamesFailurePersists(repo, doc, init, k);
    } else {
      assert pids[..k] == pids;
    }
  }

  /**
   * `fedora_changed?` for the row found (or `None` for a new, unsaved
   * record): its `updated_at` is before the document's last modification,
   * or it is stored and its access rights mention an embargo.
   */
  predicate FedoraChanged(row: Option<ObjectRecord>, lastModified: int) {
    row.Some? && (row.value.updatedAt < lastModified || Contains(row.value.accessRights, "embargo"))
  }

  /** `harvest_item`: update when the record is new or changed, otherwise do nothing. */
  function ItemStep(w: World, repo: Repository, doc: Document, today: int, now: int): Step {
    var row := Lookup(w.objects, ItemPid(doc));
    if row.None? || FedoraChanged(row, doc.profile.lastModified) then Update(w, repo, doc, today, now)
    else Step(w, [], Pass)
  }

  /** The tables and errors after a harvest, and how each document ended. */
  datatype Run = Run(world: World, exceptions: seq<HarvestError>, outcomes: seq<Outcome<Fault>>)

  /** The error the driver records for a document whose harvest raised. */
  function DriverError(doc: Document, outcome: Outcome<Fault>): seq<HarvestError> {
    if outcome.Fail? then [HarvestError(doc.pid, outcome.error)] else []
  }

  /**
   * `harvest`: every document in search order; a raise is rescued and
   * recorded with the document's own pid, and the loop goes on.
   */
  function HarvestAll(w: World, repo: Repository, docs: seq<Document>, today: int, now: int): (r: Run)
    ensures |r.outcomes| == |docs|
    decreases |docs|
  {
    if docs == [] then Run(w, [], [])
    else
      var before := HarvestAll(w, repo, docs[..|docs| - 1], today, now);
      var doc := docs[|docs| - 1];
      var step := ItemStep(before.world, repo, doc, today, now);
      Run(step.world, before.exceptions + step.notes + DriverError(doc, step.outcome), before.outcomes + [step.outcome])
  }

  /** The run over one more document is the run so far followed by that document's step. */
  lemma HarvestAllExtends(w: World, repo: Repository, docs: seq<Document>, i: nat, today: int, now: int)
    requires i < |docs|
    ensures
      var before := HarvestAll(w, repo, docs[..i], today, now);
      var step := ItemStep(before.world, repo, docs[i], today, now);
      HarvestAll(w, repo, docs[..i + 1], today, now)
        == Run(step.world, before.exceptions + step.notes + DriverError(docs[i], step.outcome), before.outcomes + [step.outcome])
  {
    assert docs[..i + 1][..i] == docs[..i];
  }

  lemma Regroup(a: seq<HarvestError>, b: seq<HarvestError>, c: seq<HarvestError>, d: seq<HarvestError>)
    ensures a + b + c + d == a + (b + c + d)
  {
  }

  /** The tables a store holds. */
  function Snapshot(db: Store): World
    reads db
  {
    World(db.objects, db.aggregationKeys, db.editGroups)
  }

  /** The harvester: the repository it reads and the errors it has collected. */
  class FedoraObjectHarvester {
    const repo: Repository
    var exceptions: seq<HarvestError>

    constructor (repo: Repository)
      ensures this.repo == repo && exceptions == []
    {
      this.repo := repo;
      exceptions := [];
    }

    /** `resource_type`, reading the descMetadata with `parse_triples`. */
    method ResourceTypeOf(doc: Document) returns (resourceType: Option<string>, fault: bool)
      ensures resourceType == ResourceType(doc) && fault == DescFault(doc, "type")
    {
      resourceType := AfModel(doc);
      fault := false;
      if doc.desc.Some? {
        var types;
        types, fault := NTriples.ParseTriples(doc.desc.value, "type", true);
        if |types| > 0 && !IsBlank(types[0]) {
          resourceType := Some(types[0]);
        }
      }
    }

    /**
     * `parent_pid` and `parent_type`, reading RELS-EXT with
     * `parse_xml_relsext` and the parent's row or repository object.
     */
    method ParentOf(objects: map<string, ObjectRecord>, doc: Document) returns (parentPid: string, parentType: Result<Option<string>, Fault>)
      ensures parentPid == ParentPid(doc) && parentType == ParentType(objects, repo, doc)
    {
      var af := AfModel(doc);
      parentPid := ItemPid(doc);
      if af != Some(GenericFile) {
        return parentPid, Success(af);
      }
      var parent: Option<string> := None;
      if doc.relsExt.Some? {
        parent := RelsExt.ParseXmlRelsext(doc.relsExt.value, "isPartOf");
        if !IsBlankOrNil(parent) {
          parentPid := StripPid(parent.value);
        }
      }
      if parentPid in objects {
        parentType := Success(Some(objects[parentPid].afModel));
      } else if doc.relsExt.None? {
        parentType := Success(Some(Unknown));
      } else {
        parentType := FetchedParentType(repo, parent.GetOr(""));
      }
    }

    /** `title`, reading the descMetadata with `parse_triples` unless the object is a GenericFile. */
    method TitleOf(doc: Document) returns (title: Result<string, Fault>, fault: bool)
      ensures title == Title(doc) && fault == TitleFault(doc)
    {
      fault := false;
      if AfModel(doc) == Some(GenericFile) {
        if doc.content.None? {
          title := Success("");
        } else if doc.content.value.dsLabel.None? {
          title := Failure(NilReceiver("label"));
        } else {
          title := Success(doc.content.value.dsLabel.value);
        }
      } else if doc.desc.None? {
        title := Success("");
      } else {
        var titles;
        titles, fault := NTriples.ParseTriples(doc.desc.value, "title", true);
        title := Success(if |titles| > 0 then titles[0] else "");
      }
    }

    /** `access_rights`, reading the rightsMetadata with `parse_xml_rights`. */
    method AccessRightsOf(doc: Document, today: int) returns (rights: Result<string, Fault>)
      ensures rights == AccessRights(doc, today)
    {
      if doc.rights.None? {
        return Success(Rights.Private);
      }
      rights := Rights.ParseXmlRights(doc.rights.value, today);
    }

    /** The attribute hash of `fedora_update`, evaluated in the hash's order. */
    method SingleItemAttributes(objects: map<string, ObjectRecord>, doc: Document, today: int) returns (r: Reading<Attributes>)
      ensures r == Derive(objects, repo, doc, today)
    {
      var resourceType, typeFault := ResourceTypeOf(doc);
      var notes := Note(doc, typeFault);
      var parentPid, parentType := ParentOf(objects, doc);
      if parentType.Failure? {
        return Reading(Failure(parentType.error), notes);
      }
      var rights := AccessRightsOf(doc, today);
      if rights.Failure? {
        return Reading(Failure(rights.error), notes);
      }
      var title, titleFault := TitleOf(doc);
      notes := notes + Note(doc, titleFault);
      if title.Failure? {
        return Reading(Failure(title.error), notes);
      }
      r := Reading(Success(Attributes(AfModel(doc), resourceType, Mimetype(doc), Bytes(doc), parentPid, parentType.value,
                                      doc.profile.createDate, doc.profile.lastModified, rights.value,
                                      Take(title.value, TitleLimit))), notes);
    }

    /** `load_group_names_for`: a loop fetching each group's name. */
    method LoadGroupNamesFor(doc: Document, pids: seq<string>) returns (r: Reading<seq<GroupEntry>>)
      ensures r == GroupNames(repo, doc, pids)
    {
      var groupElements: seq<GroupEntry> := [];
      var notes: seq<HarvestError> := [];
      var i := 0;
      while i < |pids|
        invariant 0 <= i <= |pids|
        invariant GroupNames(repo, doc, pids[..i]) == Reading(Success(groupElements), notes)
      {
        assert pids[..i + 1][..i] == pids[..i];
        var name := GroupName(repo, doc, pids[i]);
        if name.value.Failure? {
          GroupNamesFailurePersists(repo, doc, pids, i + 1);
          return Reading(Failure(name.value.error), notes + name.notes);
        }
        groupElements := groupElements + [GroupEntry(pids[i], name.value.value)];
        notes := notes + name.notes;
        i := i + 1;
      }
      assert pids[..i] == pids;
      r := Reading(Success(groupElements), notes);
    }

    /** The aggregation-key reconciliation of `fedora_update`, for each predicate in turn. */
    method ReconcileKeysOf(db: Store, doc: Document)
      modifies this, db
      ensures db.aggregationKeys == KeysAfter(old(db.aggregationKeys), doc, PredicateNames)
      ensures exceptions == old(exceptions) + KeyNotes(doc, PredicateNames)
      ensures db.objects == old(db.objects) && db.editGroups == old(db.editGroups)
    {
      var pid := ItemPid(doc);
      var i := 0;
      while i < |PredicateNames|
        invariant 0 <= i <= |PredicateNames|
        invariant db.aggregationKeys == KeysAfter(old(db.aggregationKeys), doc, PredicateNames[..i])
        invariant exceptions == old(exceptions) + KeyNotes(doc, PredicateNames[..i])
        invariant db.objects == old(db.objects) && db.editGroups == old(db.editGroups)
      {
        KeyStep(old(db.aggregationKeys), doc, PredicateNames, i);
        ghost var before := db.aggregationKeys;
        var p := PredicateNames[i];
        var keys: seq<string> := [];
        var fault := false;
        if doc.desc.Some? {
          keys, fault := NTriples.ParseTriples(doc.desc.value, p, true);
        }
        assert keys == DescValues(doc, p) && fault == DescFault(doc, p);
        exceptions := exceptions + Note(doc, fault);
        var _, _ := db.ReconcileAggregationKeys(pid, p, keys);
        assert db.aggregationKeys == ReconciledKeys(before, ItemPid(doc), p, DescValues(doc, p));
        i := i + 1;
      }
      assert PredicateNames[..i] == PredicateNames;
    }

    /** The edit-group part of `fedora_update`. */
    method ReconcileGroupsOf(db: Store, doc: Document) returns (outcome: Outcome<Fault>)
      modifies this, db
      ensures var step := GroupStep(old(Snapshot(db)), repo, doc);
        Snapshot(db) == step.world && exceptions == old(exceptions) + step.notes && outcome == step.outcome
    {
      var pids: seq<string> := [];
      if doc.rights.Some? {
        var parsed := Rights.ParseEditGroups(doc.rights.value);
        if parsed.Failure? {
          return Fail(parsed.error);
        }
        pids := parsed.value;
      }
      var names := LoadGroupNamesFor(doc, pids);
      exceptions := exceptions + names.notes;
      if names.value.Failure? {
        return Fail(names.value.error);
      }
      db.ReconcileEditGroups(ItemPid(doc), names.value.value);
      outcome := Pass;
    }

    /** `fedora_update`, on the store. */
    method FedoraUpdate(db: Store, doc: Document, today: int, now: int) returns (outcome: Outcome<Fault>)
      modifies this, db
      ensures var step := Update(old(Snapshot(db)), repo, doc, today, now);
        Snapshot(db) == step.world && exceptions == old(exceptions) + step.notes && outcome == step.outcome
    {
      var d := SingleItemAttributes(db.objects, doc, today);
      exceptions := exceptions + d.notes;
      if d.value.Failure? {
        return Fail(d.value.error);
      }
      var a := d.value.value;
      if a.afModel.None? {
        return Fail(NullColumn("af_model"));
      }
      if a.resourceType.None? {
        return Fail(NullColumn("resource_type"));
      }
      var pid := ItemPid(doc);
      db.objects := db.objects[pid := Written(Lookup(db.objects, pid), pid, a, now)];
      ReconcileKeysOf(db, doc);
      ghost var written := Snapshot(db);
      assert written == World(old(db.objects)[pid := Written(Lookup(old(db.objects), pid), pid, a, now)],
                              KeysAfter(old(db.aggregationKeys), doc, PredicateNames), old(db.editGroups));
      ghost var notesBefore := exceptions;
      outcome := ReconcileGroupsOf(db, doc);
      ghost var groups := GroupStep(written, repo, doc);
      ghost var keyNotes := KeyNotes(doc, PredicateNames);
      assert notesBefore == old(exceptions) + d.notes + keyNotes;
      assert exceptions == notesBefore + groups.notes;
      Regroup(old(exceptions), d.notes, keyNotes, groups.notes);
    }

    /** `harvest_item`, on the store. */
    method HarvestItem(db: Store, doc: Document, today: int, now: int) returns (outcome: Outcome<Fault>)
      modifies this, db
      ensures var step := ItemStep(old(Snapshot(db)), repo, doc, today, now);
        Snapshot(db) == step.world && exceptions == old(exceptions) + step.notes && outcome == step.outcome
    {
      var row := Lookup(db.objects, ItemPid(doc));
      if row.None? || FedoraChanged(row, doc.profile.lastModified) {
        outcome := FedoraUpdate(db, doc, today, now);
      } else {
        outcome := Pass;
      }
    }

    /**
     * `harvest` and `report_any_exceptions`: every document is harvested, a
     * raise is recorded with the document's pid, and the whole list is
     * reported when it is not empty.
     */
    method Harvest(db: Store, docs: seq<Document>, today: int, now: int) returns (reported: seq<HarvestError>)
      modifies this, db
      ensures var run := HarvestAll(old(Snapshot(db)), repo, docs, today, now);
        Snapshot(db) == run.world && exceptions == old(exceptions) + run.exceptions
      ensures reported == exceptions
    {
      var i := 0;
      while i < |docs|
        invariant 0 <= i <= |docs|
        invariant var run := HarvestAll(old(Snapshot(db)), repo, docs[..i], today, now);
          Snapshot(db) == run.world && exceptions == old(exceptions) + run.exceptions
      {
        assert docs[..i + 1][..i] == docs[..i];
        ghost var before := HarvestAll(old(Snapshot(db)), repo, docs[..i], today, now);
        ghost var step := ItemStep(before.world, repo, docs[i], today, now);
        HarvestAllExtends(old(Snapshot(db)), repo, docs, i, today, now);
        var outcome := HarvestItem(db, docs[i], today, now);
        exceptions := exceptions + DriverError(docs[i], outcome);
        Regroup(old(exceptions), before.exceptions, step.notes, DriverError(docs[i], outcome));
        i := i + 1;
      }
      assert docs[..i] == docs;
      reported := [];
      if |exceptions| > 0 {
        reported := exceptions;
      }
    }
  }

  /** The errors a run records that are not reader notes: the ones the driver rescued. */
  function Raised(errors: seq<HarvestError>): (r: seq<HarvestError>)
    ensures forall e | e in r :: e in errors && e.cause != ReaderError
    decreases |errors|
  {
    if errors == [] then []
    else Raised(errors[..|errors| - 1]) + (if errors[|errors| - 1].cause == ReaderError then [] else [errors[|errors| - 1]])
  }

  lemma {:induction false} RaisedConcat(a: seq<HarvestError>, b: seq<HarvestError>)
    ensures Raised(a + b) == Raised(a) + Raised(b)
    decreases |b|
  {
    if b == [] {
      assert a + b == a;
    } else {
      var init := b[..|b| - 1];
      assert (a + b)[..|a + b| - 1] == a + init;
      RaisedConcat(a, init);
    }
  }

  lemma {:induction false} RaisedOfNotes(notes: seq<HarvestError>)
    requires forall e | e in notes :: e.cause == ReaderError
    ensures Raised(notes) == []
    decreases |notes|
  {
    if notes != [] {
      RaisedOfNotes(notes[..|notes| - 1]);
    }
  }

  /** One error per failing document, with that document's pid, in search order. */
  function Tagged(docs: seq<Document>, outcomes: seq<Outcome<Fault>>): seq<HarvestError>
    requires |docs| == |outcomes|
    decreases |docs|
  {
    if docs == [] then []
    else Tagged(docs[..|docs| - 1], outcomes[..|outcomes| - 1]) + DriverError(docs[|docs| - 1], outcomes[|outcomes| - 1])
  }

  /** Every element of `notes` is a reader fault recorded for the item. */
  predicate ReaderNotes(doc: Document, notes: seq<HarvestError>) {
    forall e | e in notes :: e == HarvestError(ItemPid(doc), ReaderError)
  }

  lemma {:induction false} KeyNotesAreReaderNotes(doc: Document, predicates: seq<string>)
    ensures ReaderNotes(doc, KeyNotes(doc, predicates))
    decreases |predicates|
  {
    if predicates != [] {
      KeyNotesAreReaderNotes(doc, predicates[..|predicates| - 1]);
    }
  }

  /** Deriving the attributes records only reader notes and raises only other faults. */
  lemma DeriveNotes(objects: map<string, ObjectRecord>, repo: Repository, doc: Document, today: int)
    ensures ReaderNotes(doc, Derive(objects, repo, doc, today).notes)
    ensures Derive(objects, repo, doc, today).value.Failure? ==> Derive(objects, repo, doc, today).value.error != ReaderError
  {
    if doc.rights.Some? {
      assert Rights.XmlRights(doc.rights.value, today).Failure? ==> Rights.XmlRights(doc.rights.value, today).error != ReaderError;
    }
  }

  /** The edit-group step records only reader notes and raises only other faults. */
  lemma GroupStepNotes(w: World, repo: Repository, doc: Document)
    ensures ReaderNotes(doc, GroupStep(w, repo, doc).notes)
    ensures GroupStep(w, repo, doc).outcome.Fail? ==> GroupStep(w, repo, doc).outcome.error != ReaderError
  {
  }

  /** The world, minus what an update may change: the row, the keys and the groups of the item. */
  predicate Writes(w: World, repo: Repository, doc: Document, today: int) {
    var d := Derive(w.objects, repo, doc, today);
    d.value.Success? && d.value.value.afModel.Some? && d.value.value.resourceType.Some?
  }

  /**
   * An update that gets past the attribute hash writes the item's row and
   * its keys whatever the edit groups do; one that does not changes nothing.
   */
  lemma UpdateWrites(w: World, repo: Repository, doc: Document, today: int, now: int)
    ensures !Writes(w, repo, doc, today) ==> Update(w, repo, doc, today, now).world == w
    ensures Writes(w, repo, doc, today) ==>
      var pid := ItemPid(doc);
      var after := Update(w, repo, doc, today, now).world;
      && after.objects == w.objects[pid := Written(Lookup(w.objects, pid), pid, Derive(w.objects, repo, doc, today).value.value, now)]
      && after.keys == KeysAfter(w.keys, doc, PredicateNames)
  {
    ApplyWrites(w, repo, doc, Derive(w.objects, repo, doc, today), now);
  }

  /** The same, once the attribute hash `d` has been read. */
  lemma ApplyWrites(w: World, repo: Repository, doc: Document, d: Reading<Attributes>, now: int)
    ensures !(d.value.Success? && d.value.value.afModel.Some? && d.value.value.resourceType.Some?) ==>
      Apply(w, repo, doc, d, now).world == w
    ensures d.value.Success? && d.value.value.afModel.Some? && d.value.value.resourceType.Some? ==>
      var pid := ItemPid(doc);
      var after := Apply(w, repo, doc, d, now).world;
      && after.objects == w.objects[pid := Written(Lookup(w.objects, pid), pid, d.value.value, now)]
      && after.keys == KeysAfter(w.keys, doc, PredicateNames)
  {
  }

  /**
   * Within one document's harvest, the reader faults are recorded with the
   * item's stripped pid, and a raised fault is never a reader fault (those
   * are rescued inside `parse_triples`).
   */
  lemma ItemStepNotes(w: World, repo: Repository, doc: Document, today: int, now: int)
    ensures ReaderNotes(doc, ItemStep(w, repo, doc, today, now).notes)
    ensures ItemStep(w, repo, doc, today, now).outcome.Fail? ==> ItemStep(w, repo, doc, today, now).outcome.error != ReaderError
  {
    var row := Lookup(w.objects, ItemPid(doc));
    if row.None? || FedoraChanged(row, doc.profile.lastModified) {
      UpdateNotes(w, repo, doc, today, now);
    }
  }

  /** The same for `fedora_update` alone. */
  lemma UpdateNotes(w: World, repo: Repository, doc: Document, today: int, now: int)
    ensures ReaderNotes(doc, Update(w, repo, doc, today, now).notes)
    ensures Update(w, repo, doc, today, now).outcome.Fail? ==> Update(w, repo, doc, today, now).outcome.error != ReaderError
  {
    DeriveNotes(w.objects, repo, doc, today);
    ApplyNotes(w, repo, doc, Derive(w.objects, repo, doc, today), now);
  }

  /** Once the attributes are read, the update adds only reader notes and raises only other faults. */
  lemma ApplyNotes(w: World, repo: Repository, doc: Document, d: Reading<Attributes>, now: int)
    requires ReaderNotes(doc, d.notes) && (d.value.Failure? ==> d.value.error != ReaderError)
    ensures ReaderNotes(doc, Apply(w, repo, doc, d, now).notes)
    ensures Apply(w, repo, doc, d, now).outcome.Fail? ==> Apply(w, repo, doc, d, now).outcome.error != ReaderError
  {
    if d.value.Success? && d.value.value.afModel.Some? && d.value.value.resourceType.Some? {
      var pid := ItemPid(doc);
      var objects := w.objects[pid := Written(Lookup(w.objects, pid), pid, d.value.value, now)];
      var written := World(objects, KeysAfter(w.keys, doc, PredicateNames), w.groups);
      KeyNotesAreReaderNotes(doc, PredicateNames);
      GroupStepNotes(written, repo, doc);
    }
  }

  /**
   * Every document of the search is visited; the errors the driver records
   * are exactly one per document whose harvest raised, carrying that
   * document's pid, in search order; every other error is a reader note.
   */
  lemma {:induction false} OneErrorPerFailingDocument(w: World, repo: Repository, docs: seq<Document>, today: int, now: int)
    ensures |HarvestAll(w, repo, docs, today, now).outcomes| == |docs|
    ensures Raised(HarvestAll(w, repo, docs, today, now).exceptions) == Tagged(docs, HarvestAll(w, repo, docs, today, now).outcomes)
    decreases |docs|
  {
    if docs != [] {
      var init := docs[..|docs| - 1];
      var before := HarvestAll(w, repo, init, today, now);
      var doc := docs[|docs| - 1];
      var step := ItemStep(before.world, repo, doc, today, now);
      var run := HarvestAll(w, repo, docs, today, now);
      var err := DriverError(doc, step.outcome);
      assert run.exceptions == before.exceptions + step.notes + err;
      assert run.outcomes[..|run.outcomes| - 1] == before.outcomes && run.outcomes[|run.outcomes| - 1] == step.outcome;
      assert Raised(run.exceptions) == Raised(before.exceptions) + err by {
        ItemStepNotes(before.world, repo, doc, today, now);
        RaisedOfNotes(step.notes);
        RaisedConcat(before.exceptions, step.notes);
        RaisedConcat(before.exceptions + step.notes, err);
        assert err != [] ==> err[..0] == [];
      }
      OneErrorPerFailingDocument(w, repo, init, today, now);
    }
  }

  /**
   * The write decision: a document whose record is stored and not changed
   * is skipped with no effect; a new or changed one is updated. A record
   * that does not exist yet is never "changed".
   */
  lemma WriteDecision(w: World, repo: Repository, doc: Document, today: int, now: int)
    ensures !FedoraChanged(None, doc.profile.lastModified)
    ensures ItemPid(doc) !in w.objects ==> ItemStep(w, repo, doc, today, now) == Update(w, repo, doc, today, now)
    ensures ItemPid(doc) in w.objects && FedoraChanged(Some(w.objects[ItemPid(doc)]), doc.profile.lastModified) ==>
      ItemStep(w, repo, doc, today, now) == Update(w, repo, doc, today, now)
    ensures ItemPid(doc) in w.objects && !FedoraChanged(Some(w.objects[ItemPid(doc)]), doc.profile.lastModified) ==>
      ItemStep(w, repo, doc, today, now) == Step(w, [], Pass)
  {
  }

  /** The access-rights string of a document contains `embargo` exactly when its embargo date is after today. */
  lemma AccessRightsEmbargo(doc: Document, today: int)
    requires AccessRights(doc, today).Success?
    ensures Contains(AccessRights(doc, today).value, "embargo") <==>
      doc.rights.Some? && Rights.EmbargoedAfter(doc.rights.value, today)
  {
    if doc.rights.None? {
      ContainsShort(Rights.Private, "embargo");
    } else {
      Rights.EmbargoWordIffFuture(doc.rights.value, today);
    }
  }

  /**
   * A document harvested for the first time at a `now` no earlier than its
   * last modification is harvested again only while it is under an embargo
   * that had not ended on the first harvest's day.
   */
  lemma RevisitedOnlyWhileEmbargoed(w: World, repo: Repository, doc: Document, today: int, now: int)
    requires ItemPid(doc) !in w.objects
    requires ItemPid(doc) in ItemStep(w, repo, doc, today, now).world.objects
    requires now >= doc.profile.lastModified
    ensures
      var after := ItemStep(w, repo, doc, today, now).world;
      FedoraChanged(Lookup(after.objects, ItemPid(doc)), doc.profile.lastModified) <==>
        doc.rights.Some? && Rights.EmbargoedAfter(doc.rights.value, today)
  {
    var pid := ItemPid(doc);
    assert ItemStep(w, repo, doc, today, now) == Update(w, repo, doc, today, now);
    UpdateWrites(w, repo, doc, today, now);
    assert Writes(w, repo, doc, today);
    var d := Derive(w.objects, repo, doc, today);
    var row := Update(w, repo, doc, today, now).world.objects[pid];
    assert row == Written(None, pid, d.value.value, now);
    assert row.updatedAt == now && row.accessRights == d.value.value.accessRights;
    assert d.value.value.accessRights == AccessRights(doc, today).value;
    AccessRightsEmbargo(doc, today);
  }

  /**
   * After an update wrote the record, the keys stored under each predicate
   * are exactly the parsed non-empty values of the item's descMetadata
   * (none without one), and other objects' keys are untouched.
   */
  lemma UpdateStoresParsedKeys(w: World, repo: Repository, doc: Document, today: int, now: int)
    requires Writes(w, repo, doc, today)
    ensures
      var keys := Update(w, repo, doc, today, now).world.keys;
      && KeysUnder(keys, ItemPid(doc), PredicateNames[0]) == set k | k in DescValues(doc, PredicateNames[0])
      && KeysUnder(keys, ItemPid(doc), PredicateNames[1]) == set k | k in DescValues(doc, PredicateNames[1])
      && forall r: AggregationKey | r.objectPid != ItemPid(doc) :: r in keys <==> r in w.keys
  {
    UpdateWrites(w, repo, doc, today, now);
    KeysAfterBothPredicates(w.keys, doc);
  }

  /**
   * Reconciling both predicates leaves under each exactly the parsed values,
   * and other objects' keys untouched.
   */
  lemma KeysAfterBothPredicates(keys: set<AggregationKey>, doc: Document)
    ensures
      var after := KeysAfter(keys, doc, PredicateNames);
      && KeysUnder(after, ItemPid(doc), PredicateNames[0]) == set k | k in DescValues(doc, PredicateNames[0])
      && KeysUnder(after, ItemPid(doc), PredicateNames[1]) == set k | k in DescValues(doc, PredicateNames[1])
      && forall r: AggregationKey | r.objectPid != ItemPid(doc) :: r in after <==> r in keys
  {
    var pid := ItemPid(doc);
    var p0, p1 := PredicateNames[0], PredicateNames[1];
    assert PredicateNames[..1][..0] == [];
    assert PredicateNames[..1] == [p0];
    assert PredicateNames[..2] == PredicateNames;
    var k0 := ReconciledKeys(keys, pid, p0, DescValues(doc, p0));
    assert KeysAfter(keys, doc, PredicateNames) == ReconciledKeys(k0, pid, p1, DescValues(doc, p1));
    assert p0 != p1 by {
      assert p0[9] != p1[9];
    }
    ReconcileTwoPredicates(keys, pid, p0, p1, DescValues(doc, p0), DescValues(doc, p1));
  }

  /** Reconciling two distinct predicates one after the other. */
  lemma ReconcileTwoPredicates(keys: set<AggregationKey>, o: string, p0: string, p1: string, v0: seq<string>, v1: seq<string>)
    requires p0 != p1
    ensures
      var k0 := ReconciledKeys(keys, o, p0, v0);
      var k1 := ReconciledKeys(k0, o, p1, v1);
      && KeysUnder(k1, o, p0) == (set k | k in v0)
      && KeysUnder(k1, o, p1) == (set k | k in v1)
      && forall r: AggregationKey | r.objectPid != o :: r in k1 <==> r in keys
  {
    var k0 := ReconciledKeys(keys, o, p0, v0);
    var k1 := ReconciledKeys(k0, o, p1, v1);
    ReconciledKeysMatchParsed(keys, o, p0, v0);
    ReconciledKeysMatchParsed(k0, o, p1, v1);
    assert KeysUnder(k1, o, p0) == KeysUnder(k0, o, p0) by {
      assert forall r: AggregationKey | Under(r, o, p0) :: !Under(r, o, p1);
    }
  }

  /**
   * A record's resource type is its `af_model` unless the descMetadata
   * yielded a non-blank first `dc/terms/type` value, and then it is that value.
   */
  lemma ResourceTypeSource(doc: Document)
    ensures ResourceType(doc) == AfModel(doc) ||
      (doc.desc.Some? && ResourceType(doc).Some? && !IsBlank(ResourceType(doc).value)
       && Statement(NTriples.TermUri("type"), ResourceType(doc).value) in NTriples.Yielded(doc.desc.value))
  {
    var types := DescValues(doc, "type");
    if |types| > 0 && !IsBlank(types[0]) {
      NTriples.ValuesAreMatchingObjects(doc.desc.value, "type", types[0]);
    }
  }

  /**
   * Only a GenericFile with RELS-EXT has a parent other than itself; any other
   * model is its own parent type.
   */
  lemma OwnParent(objects: map<string, ObjectRecord>, repo: Repository, doc: Document)
    ensures !IsGenericFile(doc) || doc.relsExt.None? ==> ParentPid(doc) == ItemPid(doc)
    ensures !IsGenericFile(doc) ==> ParentType(objects, repo, doc) == Success(AfModel(doc))
    ensures IsGenericFile(doc) && doc.relsExt.None? && ItemPid(doc) !in objects ==> ParentType(objects, repo, doc) == Success(Some(Unknown))
  {
  }

  /**
   * An object whose `objModels` has no afmodel entry is harvested as a
   * non-GenericFile whose model, resource type (without a `type` value) and
   * parent type are the array's `to_s`; it is written whenever its access
   * rights and title can be read.
   */
  lemma ObjectWithoutAfmodelEntry(w: World, repo: Repository, doc: Document, today: int)
    requires FirstModelIndex(doc.profile.models).None?
    ensures AfModel(doc) == Some(ArrayToS(doc.profile.models)) && !IsGenericFile(doc)
    ensures ParentType(w.objects, repo, doc) == Success(AfModel(doc)) && ResourceType(doc).Some?
    ensures Writes(w, repo, doc, today) <==> AccessRights(doc, today).Success? && Title(doc).Success?
    ensures Writes(w, repo, doc, today) ==> Derive(w.objects, repo, doc, today).value.value.afModel == AfModel(doc)
  {
    AfModelCases(doc);
    OwnParent(w.objects, repo, doc);
  }

  /**
   * A GenericFile whose last `isPartOf` relation points at `.../und:<id>` has
   * parent pid `id`; its parent type is the `af_model` of the parent's row
   * when the table has one (the repository is then not consulted), and
   * otherwise the type fetched for `und:<id>`.
   */
  lemma ParentOfGenericFile(objects: map<string, ObjectRecord>, repo: Repository, doc: Document,
                            earlier: seq<Statement>, ns: string, base: string, id: string)
    requires IsGenericFile(doc)
    requires doc.relsExt == Some(earlier + [Statement(ns + "#" + "isPartOf", base + "/" + (Namespace + id))])
    requires '#' !in ns && '/' !in base && '/' !in id
    ensures ParentPid(doc) == id
    ensures id in objects ==> ParentType(objects, repo, doc) == Success(Some(objects[id].afModel))
    ensures id in objects ==> forall other: Repository :: ParentType(objects, other, doc) == ParentType(objects, repo, doc)
    ensures id !in objects ==> ParentType(objects, repo, doc) == FetchedParentType(repo, Namespace + id)
  {
    assert '#' !in "isPartOf" by {
      assert "isPartOf" == ['i', 's', 'P', 'a', 'r', 't', 'O', 'f'];
    }
    assert '/' !in Namespace + id;
    RelsExt.LastRelationTarget(earlier, ns, "isPartOf", base, Namespace + id);
    assert !IsSpace((Namespace + id)[0]);
    StripPidOfNamespaced(id);
  }

  /**
   * The stored title is the first 254 characters of the document's title:
   * a prefix of it, and all of it when it is no longer than that.
   */
  lemma TitleCut(objects: map<string, ObjectRecord>, repo: Repository, doc: Document, today: int)
    requires Derive(objects, repo, doc, today).value.Success?
    ensures
      var title := Derive(objects, repo, doc, today).value.value.title;
      && Title(doc).Success?
      && |title| <= TitleLimit
      && title <= Title(doc).value
      && (|Title(doc).value| <= TitleLimit ==> title == Title(doc).value)
  {
  }
}
