/**
 * The reporting tables the harvester and the scripts write: `fedora_objects`
 * (one row per pid), `fedora_object_aggregation_keys` and
 * `fedora_object_edit_groups`. Child rows are kept as sets of their column
 * values, the object they belong to named by its pid.
 */
module Records {
  import opened Wrappers
  import opened Text
  import Fedora

  /** A `fedora_objects` row; dates are day numbers. */
  datatype ObjectRecord = ObjectRecord(
    pid: string,
    afModel: string,
    resourceType: string,
    mimetype: string,
    bytes: int,
    parentPid: string,
    parentType: Option<string>,
    ingestDate: int,
    modifiedDate: int,
    accessRights: string,
    title: string,
    updatedAt: int)

  /** A `fedora_object_aggregation_keys` row; `predicate_name` may be nil. */
  datatype AggregationKey = AggregationKey(objectPid: string, predicateName: Option<string>, key: string)

  /** A `fedora_object_edit_groups` row. */
  datatype EditGroup = EditGroup(objectPid: string, groupPid: string, groupName: string)

  /** One `{group_pid:, group_name:}` hash of `load_group_names_for`. */
  datatype GroupEntry = GroupEntry(groupPid: string, groupName: string)

  /** The keys stored for object `o` under predicate `p`. */
  function KeysUnder(rows: set<AggregationKey>, o: string, p: string): set<string> {
    set r | r in rows && r.objectPid == o && r.predicateName == Some(p) :: r.key
  }

  /** The row is one of object `o`'s rows under predicate `p`. */
  predicate Under(r: AggregationKey, o: string, p: string) {
    r.objectPid == o && r.predicateName == Some(p)
  }

  /**
   * The aggregation-key rows after reconciling object `o`'s keys under `p`
   * with the freshly parsed keys: the stale rows under `(o, p)` are gone and
   * a row exists for every parsed key.
   */
  function ReconciledKeys(rows: set<AggregationKey>, o: string, p: string, parsed: seq<string>): set<AggregationKey> {
    (set r | r in rows && !(Under(r, o, p) && r.key !in parsed))
    + (set k | k in parsed :: AggregationKey(o, Some(p), k))
  }

  /** The stripped pids of the parsed edit groups (`group_pid_array`). */
  function StrippedPids(entries: seq<GroupEntry>): set<string> {
    set e | e in entries :: Fedora.StripPid(e.groupPid)
  }

  /**
   * The edit-group rows after reconciling object `o`'s groups with the parsed
   * entries: every entry has a row for its stripped pid and name, and a row
   * of `o` survives only if its pid is among the stripped parsed pids.
   */
  function ReconciledGroups(rows: set<EditGroup>, o: string, entries: seq<GroupEntry>): set<EditGroup> {
    (set r | r in rows && (r.objectPid != o || r.groupPid in StrippedPids(entries)))
    + (set e | e in entries :: EditGroup(o, Fedora.StripPid(e.groupPid), e.groupName))
  }

  /** The three tables. */
  class Store {
    var objects: map<string, ObjectRecord>
    var aggregationKeys: set<AggregationKey>
    var editGroups: set<EditGroup>

    constructor ()
      ensures objects == map[] && aggregationKeys == {} && editGroups == {}
    {
      objects := map[];
      aggregationKeys := {};
      editGroups := {};
    }

    /**
     * `get_and_add_or_delete_aggregation_keys` once the keys are parsed:
     * `first_or_initialize(&:save)` for each parsed key, then `destroy` on
     * each row under `(o, p)` whose key was not parsed. `created` and
     * `destroyed` are the keys of the rows added and removed.
     */
    method ReconcileAggregationKeys(o: string, p: string, parsed: seq<string>)
      returns (created: set<string>, destroyed: set<string>)
      modifies this
      ensures aggregationKeys == ReconciledKeys(old(aggregationKeys), o, p, parsed)
      ensures created == (set k | k in parsed) - KeysUnder(old(aggregationKeys), o, p)
      ensures destroyed == KeysUnder(old(aggregationKeys), o, p) - (set k | k in parsed)
      ensures objects == old(objects) && editGroups == old(editGroups)
    {
      created := {};
      var i := 0;
      while i < |parsed|
        invariant 0 <= i <= |parsed|
        invariant objects == old(objects) && editGroups == old(editGroups)
        invariant aggregationKeys == old(aggregationKeys) + (set k | k in parsed[..i] :: AggregationKey(o, Some(p), k))
        invariant created == (set k | k in parsed[..i]) - KeysUnder(old(aggregationKeys), o, p)
      {
        var row := AggregationKey(o, Some(p), parsed[i]);
        if row !in aggregationKeys {
          aggregationKeys := aggregationKeys + {row};
          created := created + {parsed[i]};
        }
        assert parsed[..i + 1] == parsed[..i] + [parsed[i]];
        i := i + 1;
      }
      assert parsed[..i] == parsed;
      ghost var afterCreate := aggregationKeys;
      var pending := set r | r in aggregationKeys && Under(r, o, p);
      destroyed := {};
      while pending != {}
        invariant pending <= afterCreate
        invariant objects == old(objects) && editGroups == old(editGroups)
        invariant forall r | r in pending :: Under(r, o, p)
        invariant aggregationKeys == afterCreate - (set r | r in afterCreate && Under(r, o, p) && r !in pending && r.key !in parsed)
        invariant destroyed == set r | r in afterCreate && Under(r, o, p) && r !in pending && r.key !in parsed :: r.key
        decreases pending
      {
        var r :| r in pending;
        if r.key !in parsed {
          aggregationKeys := aggregationKeys - {r};
          destroyed := destroyed + {r.key};
        }
        pending := pending - {r};
      }
    }

    /**
     * `get_and_add_or_delete_edit_groups` once the group names are loaded:
     * `first_or_initialize(&:save)` for each `(o, stripped pid, name)`, then,
     * if `o` has any edit-group rows, `destroy` on each row of `o` whose pid
     * is not among the stripped parsed pids.
     */
    method ReconcileEditGroups(o: string, entries: seq<GroupEntry>)
      modifies this
      ensures editGroups == ReconciledGroups(old(editGroups), o, entries)
      ensures objects == old(objects) && aggregationKeys == old(aggregationKeys)
    {
      var i := 0;
      while i < |entries|
        invariant 0 <= i <= |entries|
        invariant objects == old(objects) && aggregationKeys == old(aggregationKeys)
        invariant editGroups == old(editGroups) + (set e | e in entries[..i] :: EditGroup(o, Fedora.StripPid(e.groupPid), e.groupName))
      {
        var row := EditGroup(o, Fedora.StripPid(entries[i].groupPid), entries[i].groupName);
        if row !in editGroups {
          editGroups := editGroups + {row};
        }
        assert entries[..i + 1] == entries[..i] + [entries[i]];
        i := i + 1;
      }
      assert entries[..i] == entries;
      var groupPidArray: set<string> := {};
      var j := 0;
      while j < |entries|
        invariant 0 <= j <= |entries|
        invariant groupPidArray == StrippedPids(entries[..j])
      {
        groupPidArray := groupPidArray + {Fedora.StripPid(entries[j].groupPid)};
        assert entries[..j + 1] == entries[..j] + [entries[j]];
        j := j + 1;
      }
      assert entries[..j] == entries;
      ghost var afterCreate := editGroups;
      var pending := set r | r in editGroups && r.objectPid == o;
      while pending != {}
        invariant pending <= afterCreate
        invariant objects == old(objects) && aggregationKeys == old(aggregationKeys)
        invariant forall r | r in pending :: r.objectPid == o
        invariant editGroups == afterCreate - (set r | r in afterCreate && r.objectPid == o && r !in pending && r.groupPid !in groupPidArray)
        decreases pending
      {
        var r :| r in pending;
        if r.groupPid !in groupPidArray {
          editGroups := editGroups - {r};
        }
        pending := pending - {r};
      }
    }
  }

  /**
   * After reconciliation the keys stored under `(o, p)` are exactly the
   * parsed keys, and rows of other objects or other predicates are untouched.
   */
  lemma ReconciledKeysMatchParsed(rows: set<AggregationKey>, o: string, p: string, parsed: seq<string>)
    ensures KeysUnder(ReconciledKeys(rows, o, p, parsed), o, p) == set k | k in parsed
    ensures forall r: AggregationKey | !Under(r, o, p) :: r in ReconciledKeys(rows, o, p, parsed) <==> r in rows
  {
    var after := ReconciledKeys(rows, o, p, parsed);
    forall k | k in parsed
      ensures k in KeysUnder(after, o, p)
    {
      assert AggregationKey(o, Some(p), k) in after;
    }
  }

  /** A row that is already stored for a parsed key is kept, not added twice. */
  lemma ReconcileKeepsExistingRows(rows: set<AggregationKey>, o: string, p: string, parsed: seq<string>, r: AggregationKey)
    requires r in rows && Under(r, o, p) && r.key in parsed
    ensures r in ReconciledKeys(rows, o, p, parsed)
    ensures ReconciledKeys(rows, o, p, parsed) - rows == set k | k in parsed && k !in KeysUnder(rows, o, p) :: AggregationKey(o, Some(p), k)
  {
    var after := ReconciledKeys(rows, o, p, parsed);
    forall x | x in after - rows
      ensures x.key in parsed && x.key !in KeysUnder(rows, o, p) && x == AggregationKey(o, Some(p), x.key)
    {
    }
  }

  /** Without parsed keys (no descMetadata), every row under `(o, p)` is deleted. */
  lemma NoParsedKeysClearsPredicate(rows: set<AggregationKey>, o: string, p: string)
    ensures KeysUnder(ReconciledKeys(rows, o, p, []), o, p) == {}
  {
    ReconciledKeysMatchParsed(rows, o, p, []);
  }

  /** Reconciling twice with the same keys changes nothing the second time. */
  lemma ReconcileKeysIdempotent(rows: set<AggregationKey>, o: string, p: string, parsed: seq<string>)
    ensures ReconciledKeys(ReconciledKeys(rows, o, p, parsed), o, p, parsed) == ReconciledKeys(rows, o, p, parsed)
  {
  }

  /**
   * Stored keys `{A, B}` reconciled with parsed `[B, C]`: `A` is destroyed,
   * `B` kept and `C` created.
   */
  lemma ReconcileKeysExample(o: string, p: string, a: string, b: string, c: string)
    requires a != b && b != c && a != c
    ensures ReconciledKeys({AggregationKey(o, Some(p), a), AggregationKey(o, Some(p), b)}, o, p, [b, c])
            == {AggregationKey(o, Some(p), b), AggregationKey(o, Some(p), c)}
  {
    var after := ReconciledKeys({AggregationKey(o, Some(p), a), AggregationKey(o, Some(p), b)}, o, p, [b, c]);
    assert AggregationKey(o, Some(p), b) in after;
    assert AggregationKey(o, Some(p), c) in after;
  }

  /**
   * Every parsed group has a row for its stripped pid and name; a row of `o`
   * disappears only if its pid is not among the stripped parsed pids; a row
   * whose pid is still parsed survives even when its name changed; rows of
   * other objects are untouched.
   */
  lemma ReconciledGroupsProperties(rows: set<EditGroup>, o: string, entries: seq<GroupEntry>)
    ensures forall e | e in entries :: EditGroup(o, Fedora.StripPid(e.groupPid), e.groupName) in ReconciledGroups(rows, o, entries)
    ensures forall r | r in rows && r !in ReconciledGroups(rows, o, entries) :: r.objectPid == o && r.groupPid !in StrippedPids(entries)
    ensures forall r | r in rows && r.groupPid in StrippedPids(entries) :: r in ReconciledGroups(rows, o, entries)
    ensures forall r: EditGroup | r.objectPid != o :: r in ReconciledGroups(rows, o, entries) <==> r in rows
    ensures forall r | r in ReconciledGroups(rows, o, entries) && r.objectPid == o :: r.groupPid in StrippedPids(entries)
  {
  }

  /**
   * A group renamed in the repository keeps its old row: stored
   * `(o, g, "Old")` reconciled with parsed `(und:g, "New")` leaves both rows.
   */
  lemma RenamedGroupKeepsStaleRow(o: string, g: string, oldName: string, newName: string)
    requires oldName != newName
    ensures ReconciledGroups({EditGroup(o, g, oldName)}, o, [GroupEntry(Fedora.Namespace + g, newName)])
            == {EditGroup(o, g, oldName), EditGroup(o, g, newName)}
  {
    Fedora.StripPidOfNamespaced(g);
    var entries := [GroupEntry(Fedora.Namespace + g, newName)];
    assert entries[0] in entries;
    assert g in StrippedPids(entries);
    var after := ReconciledGroups({EditGroup(o, g, oldName)}, o, entries);
    assert EditGroup(o, g, oldName) in after;
    assert EditGroup(o, g, newName) in after;
  }
}
