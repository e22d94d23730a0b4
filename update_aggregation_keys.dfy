/**
 * The maintenance script `update_aggregation_keys` (its module is named
 * `UpdateParentType` in the repository): first it backfills the predicate
 * name of every aggregation-key row whose `predicate_name` is blank with
 * `creator#administrative_unit`; then, for every `fedora_objects` row, it
 * reads the `creator#affiliation` values of the object's descMetadata and
 * creates a row for each value the object does not have yet. Its delete pass
 * compares stored rows (not their keys) with the values, so it calls
 * `destroy` with no argument on the object's affiliation rows; that raises
 * `ArgumentError` whenever the object has such a row, and no row is ever
 * deleted.
 *
 * Unlike the harvester, the values are kept even when empty, and a reader
 * fault is recorded as a message of its own rather than tagged with a pid.
 */
module UpdateAggregationKeys {
  import opened Wrappers
  import opened Text
  import opened Faults
  import opened Fedora
  import opened Records
  import NTriples

  const AdministrativeUnit := "creator#administrative_unit"
  const Affiliation := "creator#affiliation"

  /** A row whose `predicate_name` is `nil` or blank. */
  predicate BlankPredicate(r: AggregationKey) {
    IsBlankOrNil(r.predicateName)
  }

  /** The row after the backfill's `update!`. */
  function Backfill(r: AggregationKey): (b: AggregationKey)
    ensures !BlankPredicate(b)
    ensures BlankPredicate(r) ==> b == r.(predicateName := Some(AdministrativeUnit))
    ensures !BlankPredicate(r) ==> b == r
  {
    assert !IsSpace(AdministrativeUnit[0]);
    if BlankPredicate(r) then r.(predicateName := Some(AdministrativeUnit)) else r
  }

  /** The rows after the backfill. */
  function Backfilled(rows: set<AggregationKey>): set<AggregationKey> {
    set r | r in rows :: Backfill(r)
  }

  /**
   * `update_predicate_name_as_administrative_unit`: visits every row once and
   * gives each blank one the administrative-unit predicate.
   */
  method UpdatePredicateNames(db: Store)
    modifies db
    ensures db.aggregationKeys == Backfilled(old(db.aggregationKeys))
    ensures db.objects == old(db.objects) && db.editGroups == old(db.editGroups)
  {
    ghost var start := db.aggregationKeys;
    var pending := db.aggregationKeys;
    while pending != {}
      invariant pending <= start
      invariant db.aggregationKeys == Backfilled(start - pending) + pending
      invariant db.objects == old(db.objects) && db.editGroups == old(db.editGroups)
      decreases pending
    {
      var r :| r in pending;
      ghost var done := start - pending;
      if BlankPredicate(r) {
        assert r !in Backfilled(done);
        db.aggregationKeys := db.aggregationKeys - {r} + {Backfill(r)};
      }
      pending := pending - {r};
      assert start - pending == done + {r};
      assert Backfilled(done + {r}) == Backfilled(done) + {Backfill(r)};
    }
    assert start - pending == start;
  }

  /**
   * After the backfill no row is blank; a row that was not blank is still
   * there; every blank row now carries the administrative-unit predicate;
   * and nothing else about a row changes.
   */
  lemma BackfillProperties(rows: set<AggregationKey>)
    ensures forall b | b in Backfilled(rows) :: !BlankPredicate(b)
    ensures forall r | r in rows && !BlankPredicate(r) :: r in Backfilled(rows)
    ensures forall r | r in rows && BlankPredicate(r) :: r.(predicateName := Some(AdministrativeUnit)) in Backfilled(rows)
    ensures forall b | b in Backfilled(rows) :: exists r | r in rows :: b.objectPid == r.objectPid && b.key == r.key
  {
    forall b | b in Backfilled(rows)
      ensures exists r | r in rows :: b.objectPid == r.objectPid && b.key == r.key
    {
      var r :| r in rows && Backfill(r) == b;
    }
  }

  /** A second backfill changes nothing. */
  lemma BackfillIdempotent(rows: set<AggregationKey>)
    ensures Backfilled(Backfilled(rows)) == Backfilled(rows)
  {
    forall b | b in Backfilled(rows)
      ensures Backfill(b) == b
    {
    }
  }

  /** A message in `@exceptions`: a reader fault's `inspect` string, or an object's error. */
  datatype Message = ReaderInspect | ObjectError(error: ScriptError)

  /**
   * `parse_triples(content, 'creator#affiliation')` on the object's
   * descMetadata (none without it): every matching value, empty ones
   * included, read before any reader fault.
   */
  function Affiliations(doc: Document): seq<string> {
    if doc.desc.None? then [] else NTriples.TripleValues(doc.desc.value, Affiliation, false)
  }

  /** The reader fault's message, when reading the affiliations raises. */
  function ReaderMessages(doc: Document): seq<Message> {
    if doc.desc.Some? && NTriples.Faults(doc.desc.value, Affiliation) then [ReaderInspect] else []
  }

  /** The rows after adding a row for every affiliation `o` does not have yet. */
  function WithKeys(rows: set<AggregationKey>, o: string, keys: seq<string>): set<AggregationKey> {
    rows + set k | k in keys :: AggregationKey(o, Some(Affiliation), k)
  }

  /**
   * The key-creation loop of `update_academic_status`: for each key, in
   * order, skip it when the object already has a row with that predicate and
   * key, otherwise `create!` one. `created` lists the keys created, in order.
   */
  method AddMissingKeys(db: Store, o: string, keys: seq<string>) returns (created: seq<string>)
    modifies db
    ensures db.aggregationKeys == WithKeys(old(db.aggregationKeys), o, keys)
    ensures forall k :: k in created <==> k in keys && k !in KeysUnder(old(db.aggregationKeys), o, Affiliation)
    ensures forall i, j | 0 <= i < j < |created| :: created[i] != created[j]
    ensures db.objects == old(db.objects) && db.editGroups == old(db.editGroups)
  {
    created := [];
    var i := 0;
    while i < |keys|
      invariant 0 <= i <= |keys|
      invariant db.aggregationKeys == WithKeys(old(db.aggregationKeys), o, keys[..i])
      invariant forall k :: k in created <==> k in keys[..i] && k !in KeysUnder(old(db.aggregationKeys), o, Affiliation)
      invariant forall a, b | 0 <= a < b < |created| :: created[a] != created[b]
      invariant db.objects == old(db.objects) && db.editGroups == old(db.editGroups)
    {
      var row := AggregationKey(o, Some(Affiliation), keys[i]);
      assert keys[..i + 1] == keys[..i] + [keys[i]];
      if row !in db.aggregationKeys {
        assert keys[i] !in created;
        db.aggregationKeys := db.aggregationKeys + {row};
        created := created + [keys[i]];
      }
      i := i + 1;
    }
    assert keys[..i] == keys;
  }

  /** The rows and messages after one object, visited on `rows`. */
  datatype Visit = Visit(rows: set<AggregationKey>, messages: seq<Message>)

  /** The error of the delete pass: it raises as soon as `o` has an affiliation row. */
  function DeleteMessages(rows: set<AggregationKey>, o: string): seq<Message> {
    if KeysUnder(rows, o, Affiliation) != {} then [ObjectError(ScriptError(o, WrongArguments))] else []
  }

  /**
   * The body of the `find_each` loop for the object row `obj`: a missing
   * object is an error; otherwise the reader fault (if any) is recorded, the
   * missing affiliation rows are created, and the delete pass raises if the
   * object now has any affiliation row.
   */
  function VisitObject(rows: set<AggregationKey>, repo: Repository, obj: ObjectRecord): Visit {
    match Find(repo, Namespace + obj.pid)
    case Failure(f) => Visit(rows, [ObjectError(ScriptError(obj.pid, f))])
    case Success(doc) =>
      var added := WithKeys(rows, obj.pid, Affiliations(doc));
      Visit(added, ReaderMessages(doc) + DeleteMessages(added, obj.pid))
  }

  /** `update_academic_status` over the rows in `order`. */
  function StatusAll(rows: set<AggregationKey>, objects: map<string, ObjectRecord>, repo: Repository, order: seq<string>): (r: Visit)
    requires forall p | p in order :: p in objects
    ensures rows <= r.rows
    ensures |r.messages| <= 2 * |order|
    decreases |order|
  {
    if order == [] then Visit(rows, [])
    else
      var before := StatusAll(rows, objects, repo, order[..|order| - 1]);
      var visit := VisitObject(before.rows, repo, objects[order[|order| - 1]]);
      Visit(visit.rows, before.messages + visit.messages)
  }

  /** The body of the `find_each` loop, on the store. */
  method VisitRow(db: Store, repo: Repository, obj: ObjectRecord) returns (messages: seq<Message>)
    modifies db
    ensures var visit := VisitObject(old(db.aggregationKeys), repo, obj);
      db.aggregationKeys == visit.rows && messages == visit.messages
    ensures db.objects == old(db.objects) && db.editGroups == old(db.editGroups)
  {
    var pid := Namespace + obj.pid;
    if pid !in repo {
      return [ObjectError(ScriptError(obj.pid, NotFound(pid)))];
    }
    var doc := repo[pid];
    var aggKeyArray: seq<string> := [];
    messages := [];
    if doc.desc.Some? {
      var fault;
      aggKeyArray, fault := NTriples.ParseTriples(doc.desc.value, Affiliation, false);
      if fault {
        messages := [ReaderInspect];
      }
    }
    if |aggKeyArray| > 0 {
      var _ := AddMissingKeys(db, obj.pid, aggKeyArray);
    } else {
      assert WithKeys(db.aggregationKeys, obj.pid, aggKeyArray) == db.aggregationKeys;
    }
    if KeysUnder(db.aggregationKeys, obj.pid, Affiliation) != {} {
      messages := messages + [ObjectError(ScriptError(obj.pid, WrongArguments))];
    }
  }

  /**
   * `update_academic_status`: visits the rows in `order` (the order
   * `find_each` yields them), collecting every message and going on after an
   * object's error.
   */
  method UpdateAcademicStatus(db: Store, repo: Repository, order: seq<string>) returns (exceptions: seq<Message>)
    requires forall p | p in order :: p in db.objects
    modifies db
    ensures var run := StatusAll(old(db.aggregationKeys), old(db.objects), repo, order);
      db.aggregationKeys == run.rows && exceptions == run.messages
    ensures db.objects == old(db.objects) && db.editGroups == old(db.editGroups)
  {
    exceptions := [];
    var i := 0;
    while i < |order|
      invariant 0 <= i <= |order|
      invariant db.objects == old(db.objects) && db.editGroups == old(db.editGroups)
      invariant var run := StatusAll(old(db.aggregationKeys), old(db.objects), repo, order[..i]);
        db.aggregationKeys == run.rows && exceptions == run.messages
    {
      assert order[..i + 1][..i] == order[..i];
      var obj := db.objects[order[i]];
      var messages := VisitRow(db, repo, obj);
      exceptions := exceptions + messages;
      i := i + 1;
    }
    assert order[..i] == order;
  }

  /** The script: the backfill, then the academic status. */
  method UpdateAggregationKeys(db: Store, repo: Repository, order: seq<string>) returns (exceptions: seq<Message>)
    requires forall p | p in order :: p in db.objects
    modifies db
    ensures var run := StatusAll(Backfilled(old(db.aggregationKeys)), old(db.objects), repo, order);
      db.aggregationKeys == run.rows && exceptions == run.messages
    ensures db.objects == old(db.objects) && db.editGroups == old(db.editGroups)
  {
    UpdatePredicateNames(db);
    exceptions := UpdateAcademicStatus(db, repo, order);
  }

  /**
   * The academic status only adds rows: every row added belongs to a visited
   * object, carries the affiliation predicate and holds one of that object's
   * affiliations; each object fetched gets a row for every affiliation.
   */
  lemma {:induction false} StatusOnlyAdds(rows: set<AggregationKey>, objects: map<string, ObjectRecord>, repo: Repository, order: seq<string>)
    requires forall p | p in order :: p in objects
    ensures forall r | r in StatusAll(rows, objects, repo, order).rows - rows ::
      && r.predicateName == Some(Affiliation)
      && exists p | p in order :: r.objectPid == objects[p].pid && Namespace + objects[p].pid in repo &&
           r.key in Affiliations(repo[Namespace + objects[p].pid])
    ensures forall p, k | p in order && Namespace + objects[p].pid in repo && k in Affiliations(repo[Namespace + objects[p].pid]) ::
      AggregationKey(objects[p].pid, Some(Affiliation), k) in StatusAll(rows, objects, repo, order).rows
    decreases |order|
  {
    if order != [] {
      var init := order[..|order| - 1];
      var last := order[|order| - 1];
      assert order == init + [last];
      StatusOnlyAdds(rows, objects, repo, init);
      var before := StatusAll(rows, objects, repo, init);
      var after := StatusAll(rows, objects, repo, order);
      forall r | r in after.rows - rows
        ensures && r.predicateName == Some(Affiliation)
          && exists p | p in order :: r.objectPid == objects[p].pid && Namespace + objects[p].pid in repo &&
               r.key in Affiliations(repo[Namespace + objects[p].pid])
      {
        if r in before.rows {
          var p :| p in init && r.objectPid == objects[p].pid && Namespace + objects[p].pid in repo &&
            r.key in Affiliations(repo[Namespace + objects[p].pid]);
          assert p in order;
        } else {
          assert last in order;
        }
      }
    }
  }

  /**
   * The delete pass deletes nothing, and for an object that is fetched it
   * raises exactly when the object had an affiliation row or has an
   * affiliation value now.
   */
  lemma DeletePassRaises(rows: set<AggregationKey>, repo: Repository, obj: ObjectRecord)
    requires Namespace + obj.pid in repo
    ensures var visit := VisitObject(rows, repo, obj);
      && rows <= visit.rows
      && (ObjectError(ScriptError(obj.pid, WrongArguments)) in visit.messages <==>
            KeysUnder(rows, obj.pid, Affiliation) != {} || |Affiliations(repo[Namespace + obj.pid])| > 0)
  {
    var doc := repo[Namespace + obj.pid];
    var added := WithKeys(rows, obj.pid, Affiliations(doc));
    if |Affiliations(doc)| > 0 {
      var k := Affiliations(doc)[0];
      assert AggregationKey(obj.pid, Some(Affiliation), k) in added;
      assert k in KeysUnder(added, obj.pid, Affiliation);
    }
    if KeysUnder(added, obj.pid, Affiliation) != {} && KeysUnder(rows, obj.pid, Affiliation) == {} {
      var k :| k in KeysUnder(added, obj.pid, Affiliation);
      var r :| r in added && r.objectPid == obj.pid && r.predicateName == Some(Affiliation) && r.key == k;
      assert r.key !in KeysUnder(rows, obj.pid, Affiliation);
      assert r in set k | k in Affiliations(doc) :: AggregationKey(obj.pid, Some(Affiliation), k);
    }
  }

  /**
   * The affiliations this script stores are the harvester's keys for the
   * same predicate, plus the empty string when a matching value is empty.
   */
  lemma KeepsEmptyValues(doc: Document)
    requires doc.desc.Some?
    ensures (set k | k in Affiliations(doc)) - {""} == set k | k in NTriples.TripleValues(doc.desc.value, Affiliation, true)
  {
    NTriples.DropEmptyFilters(doc.desc.value, Affiliation);
  }
}
