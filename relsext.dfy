/**
 * The RDF/XML Relation Reader, `parse_xml_relsext`: the target of one
 * relation in an object's RELS-EXT datastream, as the second `/`-segment of
 * the statement's object. The harvester and the parent-type script hold the
 * same code; it is modelled once.
 */
module RelsExt {
  import opened Wrappers
  import opened Text
  import opened Rdf

  /** `thing.predicate.to_s.split('#')[1]`: the relation name after the `#`. */
  function RelationName(st: Statement): Option<string> {
    Segment(st.pred, '#', 1)
  }

  /** `thing.object.to_s.split('/')[1]`: the segment after the first `/`. */
  function TargetSegment(st: Statement): Option<string> {
    Segment(st.obj, '/', 1)
  }

  /** The statement is about the relation `key`. */
  predicate IsRelation(st: Statement, key: string) {
    RelationName(st) == Some(key)
  }

  /**
   * What `parse_xml_relsext(stream, key)` returns: the target segment of the
   * last statement about `key` (which may itself be `nil`), or `nil` when no
   * statement is about `key`.
   */
  function RelationTarget(statements: seq<Statement>, key: string): Option<string>
    decreases |statements|
  {
    if statements == [] then None
    else
      var last := statements[|statements| - 1];
      if IsRelation(last, key) then TargetSegment(last)
      else RelationTarget(statements[..|statements| - 1], key)
  }

  /**
   * `parse_xml_relsext`: a loop over the statements that stores the target
   * segment of each statement about `key` in a hash under the relation name,
   * then looks `key` up in the hash.
   */
  method ParseXmlRelsext(statements: seq<Statement>, key: string) returns (r: Option<string>)
    ensures r == RelationTarget(statements, key)
  {
    var xmlHash: map<string, Option<string>> := map[];
    var i := 0;
    while i < |statements|
      invariant 0 <= i <= |statements|
      invariant xmlHash.Keys <= {key}
      invariant key in xmlHash ==> xmlHash[key] == RelationTarget(statements[..i], key)
      invariant key !in xmlHash ==> RelationTarget(statements[..i], key) == None
    {
      assert statements[..i + 1][..i] == statements[..i];
      var name := RelationName(statements[i]);
      if name != Some(key) {
        i := i + 1;
        continue;
      }
      var value := TargetSegment(statements[i]);
      xmlHash := xmlHash[name.value := value];
      i := i + 1;
    }
    assert statements[..i] == statements;
    r := if key in xmlHash then xmlHash[key] else None;
  }

  /**
   * The last statement about the relation wins: the result is the target of
   * the statement about `key` with the greatest index, and `nil` when there
   * is none.
   */
  lemma {:induction false} LastRelationWins(statements: seq<Statement>, key: string, i: nat)
    requires i < |statements| && IsRelation(statements[i], key)
    requires forall j | i < j < |statements| :: !IsRelation(statements[j], key)
    ensures RelationTarget(statements, key) == TargetSegment(statements[i])
    decreases |statements|
  {
    if i < |statements| - 1 {
      var init := statements[..|statements| - 1];
      LastRelationWins(init, key, i);
    }
  }

  /** With no statement about the relation, the result is `nil`. */
  lemma {:induction false} NoRelationNoTarget(statements: seq<Statement>, key: string)
    requires forall j | 0 <= j < |statements| :: !IsRelation(statements[j], key)
    ensures RelationTarget(statements, key) == None
    decreases |statements|
  {
    if statements != [] {
      NoRelationNoTarget(statements[..|statements| - 1], key);
    }
  }

  /** The relation name of `<ns#name>` is `name` when `ns` has no `#`. */
  lemma RelationNameOf(ns: string, name: string, target: string)
    requires '#' !in ns && '#' !in name && name != ""
    ensures RelationName(Statement(ns + "#" + name, target)) == Some(name)
  {
    SecondSegment(ns, '#', name);
  }

  /**
   * The shape of the repository's own reader test: whatever relations come
   * first, a last statement `<ns#isPartOf> <info:fedora/und:zs25x636043>`
   * makes the reader return `und:zs25x636043`; in general, a last relation
   * `ns#key` pointing at `base/id` gives `id`.
   */
  lemma LastRelationTarget(earlier: seq<Statement>, ns: string, key: string, base: string, id: string)
    requires '#' !in ns && '#' !in key && key != ""
    requires '/' !in base && '/' !in id && id != ""
    ensures RelationTarget(earlier + [Statement(ns + "#" + key, base + "/" + id)], key) == Some(id)
  {
    var last := Statement(ns + "#" + key, base + "/" + id);
    var statements := earlier + [last];
    RelationNameOf(ns, key, last.obj);
    SecondSegment(base, '/', id);
    assert statements[|statements| - 1] == last;
  }
}
