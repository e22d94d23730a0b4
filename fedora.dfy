/**
 * A Fedora object as the harvester reads it, and the repository it is
 * fetched from. Datastreams are present or absent; their contents are given
 * in the parsed form the readers consume. `repo.find` becomes a lookup that
 * fails with `NotFound` on a pid the repository does not hold.
 */
module Fedora {
  import opened Wrappers
  import opened Text
  import opened RubyInspect
  import opened Faults
  import opened Rdf
  import NTriples
  import Rights

  /** The object profile: `objCreateDate`, `objLastModDate` (as day numbers) and `objModels`. */
  datatype Profile = Profile(createDate: int, lastModified: int, models: seq<string>)

  /** The `content` datastream: its `mimeType`, `size` and `label` (`dsLabel`), each possibly nil. */
  datatype Content = Content(mimeType: Option<string>, size: Option<int>, dsLabel: Option<string>)

  /**
   * A digital object: its pid (with the `und:` namespace), its profile and
   * the four datastreams the harvester reads.
   */
  datatype Document = Document(
    pid: string,
    profile: Profile,
    desc: Option<NTriples.Stream>,
    rights: Option<Rights.RightsMetadata>,
    relsExt: Option<seq<Statement>>,
    content: Option<Content>)

  type Repository = map<string, Document>

  /** `repo.find(pid)`. */
  function Find(repo: Repository, pid: string): Result<Document, Fault> {
    if pid in repo then Success(repo[pid]) else Failure(NotFound(pid))
  }

  const Namespace := "und:"

  /** `strip_pid`: `work_pid.sub('und:', '')`. */
  function StripPid(pid: string): string {
    SubFirst(pid, Namespace, "")
  }

  /**
   * `strip_pid` removes the leftmost `und:` and nothing else; a pid without
   * one is returned unchanged.
   */
  lemma StripPidRemovesFirst(pid: string)
    ensures IndexOf(pid, Namespace).None? ==> StripPid(pid) == pid
    ensures IndexOf(pid, Namespace).Some? ==>
      var i := IndexOf(pid, Namespace).value;
      StripPid(pid) == pid[..i] + pid[i + |Namespace|..] &&
      forall j: nat | j < i :: !OccursAt(pid, Namespace, j)
  {
    SubFirstSplices(pid, Namespace, "");
    IndexOfIsLeftmost(pid, Namespace);
    if IndexOf(pid, Namespace).Some? {
      var i := IndexOf(pid, Namespace).value;
      assert pid[..i] + "" + pid[i + |Namespace|..] == pid[..i] + pid[i + |Namespace|..];
    }
  }

  /**
   * The scripts fetch `"und:#{pid}"` for a stored pid; stripping that gives
   * the stored pid back.
   */
  lemma StripPidOfNamespaced(id: string)
    ensures StripPid(Namespace + id) == id
  {
    var s := Namespace + id;
    assert s[..|Namespace|] == Namespace;
    assert s[|Namespace|..] == id;
  }

  /** The index of the first `objModels` entry that contains `afmodel`. */
  function FirstModelIndex(models: seq<string>): (r: Option<nat>)
    ensures r.Some? ==> r.value < |models| && Contains(models[r.value], "afmodel")
    ensures r.Some? ==> forall j | 0 <= j < r.value :: !Contains(models[j], "afmodel")
    ensures r.None? ==> forall j | 0 <= j < |models| :: !Contains(models[j], "afmodel")
    decreases |models|
  {
    if models == [] then None
    else if Contains(models[0], "afmodel") then Some(0)
    else
      match FirstModelIndex(models[1..])
      case None => None
      case Some(i) => Some(i + 1)
  }

  /**
   * The third `:`-segment of the first `afmodel` entry, as `parse_af_model`
   * and the parent-type rule read it (`nil` when the entry has fewer
   * segments).
   */
  function ModelName(models: seq<string>): Option<string> {
    match FirstModelIndex(models)
    case None => None
    case Some(i) => Segment(models[i], ':', 2)
  }

  /**
   * `af_model`: the model name of the object's own profile. When no entry
   * names an afmodel, `each` falls through and returns the `objModels` array
   * itself, which the string column stores as the array's `to_s`.
   */
  function AfModel(doc: Document): Option<string> {
    if FirstModelIndex(doc.profile.models).None? then Some(ArrayToS(doc.profile.models))
    else ModelName(doc.profile.models)
  }

  /**
   * Without an afmodel entry the model is the bracketed list of the entries,
   * never a bare model name such as `GenericFile`; with one it is that
   * entry's third segment.
   */
  lemma AfModelCases(doc: Document)
    ensures FirstModelIndex(doc.profile.models).None? ==>
      AfModel(doc) == Some(ArrayToS(doc.profile.models)) && AfModel(doc).value[0] == '[' && AfModel(doc) != Some("GenericFile")
    ensures FirstModelIndex(doc.profile.models).Some? ==> AfModel(doc) == ModelName(doc.profile.models)
  {
    if FirstModelIndex(doc.profile.models).None? {
      assert "GenericFile"[0] == 'G';
    }
  }

  /**
   * An entry `info:fedora/afmodel:Name` names the model `Name`: with one
   * entry of the form `a:b:Name` whose middle part mentions `afmodel`,
   * preceded only by entries that do not, the model name is `Name`.
   */
  lemma ModelNameOfEntry(earlier: seq<string>, a: string, b: string, name: string, later: seq<string>)
    requires forall j | 0 <= j < |earlier| :: !Contains(earlier[j], "afmodel")
    requires ':' !in a && ':' !in b && ':' !in name && name != ""
    requires Contains(b, "afmodel")
    ensures ModelName(earlier + [a + ":" + b + ":" + name] + later) == Some(name)
  {
    var entry := a + ":" + b + ":" + name;
    var models := earlier + [entry] + later;
    EntryMentionsAfmodel(a, b, name);
    assert models[|earlier|] == entry;
    assert FirstModelIndex(models) == Some(|earlier|);
    ThirdSegment(a, b, ':', name);
  }

  /** An entry whose middle `:`-part mentions `afmodel` mentions it. */
  lemma EntryMentionsAfmodel(a: string, b: string, name: string)
    requires Contains(b, "afmodel")
    ensures Contains(a + ":" + b + ":" + name, "afmodel")
  {
    assert a + ":" + b + ":" + name == (a + ":") + b + (":" + name);
    ContainsWithin(a + ":", b, ":" + name, "afmodel");
  }

  /**
   * The parent's type as fetched from the repository (`@repo.find` on the
   * `isPartOf` target): the model name of its first `afmodel` entry, or
   * `Unknown` when its profile has none. A pid the repository does not hold
   * fails.
   */
  function FetchedParentType(repo: Repository, target: string): Result<Option<string>, Fault> {
    match Find(repo, target)
    case Failure(f) => Failure(f)
    case Success(parent) =>
      if FirstModelIndex(parent.profile.models).None? then Success(Some("Unknown"))
      else Success(ModelName(parent.profile.models))
  }

  /** The fetched type is `Unknown` exactly when the parent names no afmodel. */
  lemma FetchedParentTypeUnknown(repo: Repository, target: string)
    requires target in repo
    ensures FetchedParentType(repo, target).Success?
    ensures (forall j | 0 <= j < |repo[target].profile.models| :: !Contains(repo[target].profile.models[j], "afmodel"))
            ==> FetchedParentType(repo, target) == Success(Some("Unknown"))
    ensures (exists j | 0 <= j < |repo[target].profile.models| :: Contains(repo[target].profile.models[j], "afmodel"))
            ==> FetchedParentType(repo, target) == Success(ModelName(repo[target].profile.models))
  {
  }
}
