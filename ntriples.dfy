/**
 * The Triple Stream Reader, `parse_triples`: the values of one Dublin Core
 * term in a datastream written in N-Triples. The three copies in the
 * repository differ only in whether empty values are rejected and in what is
 * done with a reader fault; the reader is modelled once, with a flag for the
 * first difference, and each caller handles the fault its own way.
 */
module NTriples {
  import opened Wrappers
  import opened Text
  import opened Rdf

  /**
   * A datastream as the N-Triples reader sees it: the raw text (read only by
   * the `include?` pre-filter), the statements the reader yields in order, and,
   * when the reader raises `RDF::ReaderError`, the index of the statement at
   * which it raises (an index at or past the end means after the last one).
   */
  datatype Stream = Stream(text: string, statements: seq<Statement>, faultAt: Option<nat>)

  const DcTerms := "http://purl.org/dc/terms/"

  /** The full predicate URI of a Dublin Core term. */
  function TermUri(key: string): string {
    DcTerms + key
  }

  /** The statements the reader yields before it raises, or all of them. */
  function Yielded(s: Stream): (r: seq<Statement>)
    ensures r <= s.statements
  {
    if s.faultAt.Some? && s.faultAt.value < |s.statements| then s.statements[..s.faultAt.value]
    else s.statements
  }

  /** The pre-filter lets the stream through to the reader. */
  predicate Scanned(s: Stream, key: string) {
    Contains(s.text, TermUri(key))
  }

  /** Reading the stream for `key` runs into a reader fault. */
  predicate Faults(s: Stream, key: string) {
    Scanned(s, key) && s.faultAt.Some?
  }

  /** The objects of the statements whose predicate is `uri`, in order. */
  function Objects(statements: seq<Statement>, uri: string): seq<string>
    decreases |statements|
  {
    if statements == [] then []
    else
      var last := statements[|statements| - 1];
      Objects(statements[..|statements| - 1], uri) + (if last.pred == uri then [last.obj] else [])
  }

  /** Ruby's `reject(&:empty?)`. */
  function NonEmpty(xs: seq<string>): (r: seq<string>)
    ensures forall k | 0 <= k < |r| :: r[k] != ""
    ensures forall v :: v in r <==> v in xs && v != ""
    decreases |xs|
  {
    if xs == [] then []
    else NonEmpty(xs[..|xs| - 1]) + (if xs[|xs| - 1] == "" then [] else [xs[|xs| - 1]])
  }

  /**
   * What `parse_triples(stream, key)` returns: nothing when the pre-filter
   * fails, otherwise the objects of the matching statements read before any
   * fault, with empty strings rejected when `dropEmpty` holds.
   */
  function TripleValues(s: Stream, key: string, dropEmpty: bool): seq<string> {
    if !Scanned(s, key) then []
    else
      var values := Objects(Yielded(s), TermUri(key));
      if dropEmpty then NonEmpty(values) else values
  }

  /**
   * `parse_triples`: the pre-filter, then a loop over the statements that
   * pushes each matching object onto the result until the reader raises.
   * `fault` reports that the reader raised; the callers record it.
   */
  method ParseTriples(s: Stream, key: string, dropEmpty: bool) returns (values: seq<string>, fault: bool)
    ensures values == TripleValues(s, key, dropEmpty)
    ensures fault == Faults(s, key)
  {
    var dataArray: seq<string> := [];
    var fullUri := DcTerms + key;
    if !Contains(s.text, fullUri) {
      return [], false;
    }
    fault := false;
    var i := 0;
    while i < |s.statements|
      invariant 0 <= i <= |s.statements|
      invariant !fault ==> s.faultAt.None? || s.faultAt.value >= i
      invariant fault ==> s.faultAt == Some(i)
      invariant dataArray == Objects(s.statements[..i], fullUri)
      decreases |s.statements| - i, !fault
    {
      if s.faultAt == Some(i) {
        fault := true;
        break;
      }
      var statement := s.statements[i];
      if statement.pred == fullUri {
        dataArray := dataArray + [statement.obj];
      }
      assert s.statements[..i + 1][..i] == s.statements[..i];
      i := i + 1;
    }
    assert !fault ==> s.statements[..i] == s.statements;
    fault := s.faultAt.Some?;
    values := if dropEmpty then NonEmpty(dataArray) else dataArray;
  }

  /** Every object in `Objects` comes from a matching statement, and every matching statement contributes. */
  lemma {:induction false} ObjectsMembership(statements: seq<Statement>, uri: string, v: string)
    ensures v in Objects(statements, uri) <==> Statement(uri, v) in statements
    decreases |statements|
  {
    if statements != [] {
      var init := statements[..|statements| - 1];
      ObjectsMembership(init, uri, v);
      assert statements == init + [statements[|statements| - 1]];
    }
  }

  /** Reading a prefix of the statements gives a prefix of the objects. */
  lemma {:induction false} ObjectsOfPrefix(statements: seq<Statement>, k: nat, uri: string)
    requires k <= |statements|
    ensures Objects(statements[..k], uri) <= Objects(statements, uri)
    decreases |statements|
  {
    if k < |statements| {
      var init := statements[..|statements| - 1];
      assert statements[..k] == init[..k];
      ObjectsOfPrefix(init, k, uri);
    } else {
      assert statements[..k] == statements;
    }
  }

  /** Rejecting empty strings keeps a prefix a prefix. */
  lemma {:induction false} NonEmptyOfPrefix(xs: seq<string>, ys: seq<string>)
    requires xs <= ys
    ensures NonEmpty(xs) <= NonEmpty(ys)
    decreases |ys|
  {
    if |xs| < |ys| {
      var init := ys[..|ys| - 1];
      assert xs <= init;
      NonEmptyOfPrefix(xs, init);
    } else {
      assert xs == ys;
    }
  }

  /**
   * The values a harvester-style read returns are exactly the non-empty
   * objects of the statements with the term's predicate that the reader
   * yielded, and only when the pre-filter passed.
   */
  lemma ValuesAreMatchingObjects(s: Stream, key: string, v: string)
    ensures v in TripleValues(s, key, true) <==>
      Scanned(s, key) && v != "" && Statement(TermUri(key), v) in Yielded(s)
  {
    ObjectsMembership(Yielded(s), TermUri(key), v);
  }

  /**
   * A reader fault loses only the values after it: what is returned is a
   * prefix of what the same stream would give without the fault.
   */
  lemma FaultKeepsEarlierValues(s: Stream, key: string, dropEmpty: bool)
    ensures TripleValues(s, key, dropEmpty) <= TripleValues(s.(faultAt := None), key, dropEmpty)
  {
    if Scanned(s, key) {
      var uri := TermUri(key);
      var k := |Yielded(s)|;
      assert Yielded(s) == s.statements[..k];
      ObjectsOfPrefix(s.statements, k, uri);
      NonEmptyOfPrefix(Objects(Yielded(s), uri), Objects(s.statements, uri));
    }
  }

  /**
   * The harvester's reader drops exactly the empty values that the
   * aggregation-key script keeps.
   */
  lemma DropEmptyFilters(s: Stream, key: string)
    ensures TripleValues(s, key, true) == NonEmpty(TripleValues(s, key, false))
    ensures "" !in TripleValues(s, key, true)
  {
  }

  /**
   * The stream of the repository's own reader test: five statements, one of
   * them `dc/terms/language "English"`; reading `language` gives `["English"]`.
   */
  lemma LanguageExample()
    ensures
      var subject := "<info:fedora/und:00000001s4s> <";
      var line := subject + TermUri("language") + "> \"English\" .";
      var statements := [
        Statement(TermUri("title"), "Collection with long description"),
        Statement(TermUri("description"), "The most recent versions of V-Dem data"),
        Statement(TermUri("dateSubmitted"), "2014-12-19Z"),
        Statement(TermUri("language"), "English"),
        Statement(TermUri("modified"), "2014-12-19Z")];
      TripleValues(Stream(line, statements, None), "language", true) == ["English"]
  {
    var subject := "<info:fedora/und:00000001s4s> <";
    ContainsInfix(subject, TermUri("language"), "> \"English\" .");
    var uri := TermUri("language");
    assert TermUri("modified")[|DcTerms|] != uri[|DcTerms|];
    var statements := [
      Statement(TermUri("title"), "Collection with long description"),
      Statement(TermUri("description"), "The most recent versions of V-Dem data"),
      Statement(TermUri("dateSubmitted"), "2014-12-19Z"),
      Statement(TermUri("language"), "English"),
      Statement(TermUri("modified"), "2014-12-19Z")];
    assert Objects(statements[..1], uri) == [];
    assert statements[..2][..1] == statements[..1];
    assert Objects(statements[..2], uri) == [];
    assert statements[..3][..2] == statements[..2];
    assert Objects(statements[..3], uri) == [];
    assert statements[..4][..3] == statements[..3];
    assert Objects(statements[..4], uri) == ["English"];
    assert statements[..4] == statements[..|statements| - 1];
    assert Objects(statements, uri) == ["English"];
    assert NonEmpty(["English"]) == NonEmpty([]) + ["English"];
    var line := subject + TermUri("language") + "> \"English\" .";
    assert Scanned(Stream(line, statements, None), "language");
  }
}
