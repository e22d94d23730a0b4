/**
 * The web-log harvester (`HarvestWeblogs`): `handle_one_record`, which turns
 * one parsed access-log line into a usage event or drops it, and the
 * seen-file bookkeeping of `harvest_directory`.
 */
module Weblog {
  import opened Wrappers
  import opened Text

  /** The usage-event row `LineRecord#save` inserts. */
  datatype UsageEvent = UsageEvent(ipAddress: string, eventTime: int, event: string, pid: string, agent: string)

  /** One access-log line, as `parse_file_gz` fills it in. */
  class LineRecord {
    var ip: string
    var eventTime: int
    var requestMethod: string
    var path: string
    var status: string
    var agent: string
    var event: Option<string>
    var pid: Option<string>

    constructor (ip: string, eventTime: int, requestMethod: string, path: string, status: string, agent: string)
      ensures this.ip == ip && this.eventTime == eventTime && this.requestMethod == requestMethod
      ensures this.path == path && this.status == status && this.agent == agent
      ensures event == None && pid == None
    {
      this.ip := ip;
      this.eventTime := eventTime;
      this.requestMethod := requestMethod;
      this.path := path;
      this.status := status;
      this.agent := agent;
      event := None;
      pid := None;
    }
  }

  /** The agent is a crawler (`/(bot|spider|yahoo)/i`) or the Solr harvester (`/ruby/i`). */
  predicate Robot(agent: string) {
    ContainsIgnoringCase(agent, "bot") || ContainsIgnoringCase(agent, "spider")
    || ContainsIgnoringCase(agent, "yahoo") || ContainsIgnoringCase(agent, "ruby")
  }

  /** The guards of `handle_one_record`: a successful GET by something other than a robot. */
  predicate Admitted(status: string, requestMethod: string, agent: string) {
    status == "200" && requestMethod == "GET" && !Robot(agent)
  }

  /**
   * What the `case` on the path segments does: the event it assigns (`None`
   * when it assigns none), the id it routes (`None` for `nil`), and whether
   * it raises (`x id = p[2]` calls an undefined method `x` after assigning
   * the event and the id). A download path containing `thumbnail` returns
   * before anything is assigned.
   */
  datatype Routing = Routing(event: Option<string>, id: Option<string>, raises: bool)

  function RoutePath(path: string): (r: Routing)
    ensures r.id.Some? ==> r.event.Some?
    ensures r.raises ==> r.event == Some("view")
  {
    var p := Split(path, '/');
    var first := At(p, 1);
    if first == Some("downloads") then
      if Contains(path, "thumbnail") then Routing(None, None, false)
      else Routing(Some("download"), At(p, 2), false)
    else if first == Some("files") || first == Some("citations") then
      Routing(Some("view"), At(p, 2), true)
    else if first == Some("concern") then
      var kind := At(p, 2);
      if kind == Some("generic_files") || kind == Some("citations") then Routing(Some("view"), At(p, 3), false)
      else Routing(None, None, false)
    else Routing(None, None, false)
  }

  /**
   * The end of `handle_one_record`: dropped, with the event it may already
   * have assigned; saved with an event and a pid; or raised, with the event
   * assigned before the raise.
   */
  datatype Verdict = Ignored(eventSet: Option<string>) | Recorded(event: string, pid: string) | Failed(event: string)

  /** An id naming an API access. */
  predicate ApiId(id: string) {
    EndsWith(id, "xml") || EndsWith(id, "json")
  }

  const IdPrefix := "vecnet:"

  /** The verdict of `handle_one_record` on a record's fields. */
  function Judge(status: string, requestMethod: string, agent: string, path: string): Verdict {
    if !Admitted(status, requestMethod, agent) then Ignored(None)
    else
      var routing := RoutePath(path);
      if routing.raises then Failed(routing.event.value)
      else if routing.id.None? || ApiId(routing.id.value) then Ignored(routing.event)
      else Recorded(routing.event.value, RemoveAll(routing.id.value, IdPrefix))
  }

  /**
   * `handle_one_record`: assigns `event` and `pid` on the record as the
   * source does and returns the usage event saved, if any, and whether it
   * raised.
   */
  method HandleOneRecord(r: LineRecord) returns (saved: Option<UsageEvent>, raised: bool)
    modifies r
    ensures r.ip == old(r.ip) && r.eventTime == old(r.eventTime) && r.requestMethod == old(r.requestMethod)
    ensures r.path == old(r.path) && r.status == old(r.status) && r.agent == old(r.agent)
    ensures match Judge(r.status, r.requestMethod, r.agent, r.path)
      case Ignored(e) =>
        saved == None && !raised && r.event == (if e.Some? then e else old(r.event)) && r.pid == old(r.pid)
      case Recorded(e, pid) =>
        saved == Some(UsageEvent(r.ip, r.eventTime, e, pid, r.agent)) && !raised
        && r.event == Some(e) && r.pid == Some(pid)
      case Failed(e) =>
        saved == None && raised && r.event == Some(e) && r.pid == old(r.pid)
  {
    saved, raised := None, false;
    if r.status != "200" {
      return;
    }
    if r.requestMethod != "GET" {
      return;
    }
    if ContainsIgnoringCase(r.agent, "bot") || ContainsIgnoringCase(r.agent, "spider") || ContainsIgnoringCase(r.agent, "yahoo") {
      return;
    }
    if ContainsIgnoringCase(r.agent, "ruby") {
      return;
    }
    var p := Split(r.path, '/');
    var id: Option<string> := None;
    var first := At(p, 1);
    if first == Some("downloads") {
      if Contains(r.path, "thumbnail") {
        return;
      }
      r.event := Some("download");
      id := At(p, 2);
    } else if first == Some("files") || first == Some("citations") {
      r.event := Some("view");
      raised := true;
      return;
    } else if first == Some("concern") {
      var kind := At(p, 2);
      if kind == Some("generic_files") || kind == Some("citations") {
        r.event := Some("view");
        id := At(p, 3);
      }
    }
    if id.None? {
      return;
    }
    if EndsWith(id.value, "xml") || EndsWith(id.value, "json") {
      return;
    }
    var bare := RemoveAll(id.value, IdPrefix);
    r.pid := Some(bare);
    saved := Some(UsageEvent(r.ip, r.eventTime, r.event.value, bare, r.agent));
  }

  /** `"/" + a + "/" + b` splits into its three segments. */
  lemma SplitTwoSegments(a: string, b: string)
    requires '/' !in a && '/' !in b && b != ""
    ensures Split("/" + a + "/" + b, '/') == ["", a, b]
  {
    FieldsOfJoined(a, '/', b);
    FieldsWithoutSeparator(b, '/');
    assert "/" + a + "/" + b == "" + ['/'] + (a + ['/'] + b);
    FieldsOfJoined("", '/', a + ['/'] + b);
  }

  /** `"/" + a + "/" + b + "/" + c` splits into its four segments. */
  lemma SplitThreeSegments(a: string, b: string, c: string)
    requires '/' !in a && '/' !in b && '/' !in c && c != ""
    ensures Split("/" + a + "/" + b + "/" + c, '/') == ["", a, b, c]
  {
    FieldsOfJoined(b, '/', c);
    FieldsWithoutSeparator(c, '/');
    FieldsOfJoined(a, '/', b + ['/'] + c);
    assert "/" + a + "/" + b + "/" + c == "" + ['/'] + (a + ['/'] + (b + ['/'] + c));
    FieldsOfJoined("", '/', a + ['/'] + (b + ['/'] + c));
  }

  /** Nothing is recorded for a request that fails a guard. */
  lemma GuardsDrop(status: string, requestMethod: string, agent: string, path: string)
    ensures Judge(status, requestMethod, agent, path).Recorded? ==> status == "200" && requestMethod == "GET"
    ensures Judge(status, requestMethod, agent, path).Recorded? ==>
      !ContainsIgnoringCase(agent, "bot") && !ContainsIgnoringCase(agent, "spider")
      && !ContainsIgnoringCase(agent, "yahoo") && !ContainsIgnoringCase(agent, "ruby")
    ensures !Admitted(status, requestMethod, agent) ==> Judge(status, requestMethod, agent, path) == Ignored(None)
  {
  }

  /**
   * `/downloads/<id>` is recorded as a download of the id without its
   * `vecnet:` prefixes, unless the path mentions a thumbnail (then nothing
   * happens) or the id names an API access.
   */
  lemma DownloadRoute(status: string, requestMethod: string, agent: string, id: string)
    requires Admitted(status, requestMethod, agent)
    requires '/' !in id && id != ""
    ensures
      var path := "/" + "downloads" + "/" + id;
      Judge(status, requestMethod, agent, path) ==
        if Contains(path, "thumbnail") then Ignored(None)
        else if ApiId(id) then Ignored(Some("download"))
        else Recorded("download", RemoveAll(id, IdPrefix))
  {
    assert '/' !in "downloads" by {
      assert "downloads" == ['d', 'o', 'w', 'n', 'l', 'o', 'a', 'd', 's'];
    }
    SplitTwoSegments("downloads", id);
  }

  /**
   * `/concern/generic_files/<id>` and `/concern/citations/<id>` are recorded
   * as views of the id; any other `/concern/` kind records nothing.
   */
  lemma ConcernRoute(status: string, requestMethod: string, agent: string, kind: string, id: string)
    requires Admitted(status, requestMethod, agent)
    requires '/' !in kind && '/' !in id && id != ""
    ensures
      var path := "/" + "concern" + "/" + kind + "/" + id;
      Judge(status, requestMethod, agent, path) ==
        if kind != "generic_files" && kind != "citations" then Ignored(None)
        else if ApiId(id) then Ignored(Some("view"))
        else Recorded("view", RemoveAll(id, IdPrefix))
  {
    assert '/' !in "concern" by {
      assert "concern" == ['c', 'o', 'n', 'c', 'e', 'r', 'n'];
    }
    SplitThreeSegments("concern", kind, id);
  }

  /** `/files/...` and `/citations/...` raise after assigning the `view` event. */
  lemma FilesRouteRaises(status: string, requestMethod: string, agent: string, top: string, rest: string)
    requires Admitted(status, requestMethod, agent)
    requires top == "files" || top == "citations"
    requires '/' !in rest && rest != ""
    ensures Judge(status, requestMethod, agent, "/" + top + "/" + rest) == Failed("view")
  {
    assert '/' !in top by {
      assert top == ['f', 'i', 'l', 'e', 's'] || top == ['c', 'i', 't', 'a', 't', 'i', 'o', 'n', 's'];
    }
    SplitTwoSegments(top, rest);
  }

  /**
   * The prefix removal: an id without `vecnet:` is kept as it is, and a
   * leading `vecnet:` is removed.
   */
  lemma PrefixRemoval(id: string)
    ensures !Contains(id, IdPrefix) ==> RemoveAll(id, IdPrefix) == id
    ensures RemoveAll(IdPrefix + id, IdPrefix) == RemoveAll(id, IdPrefix)
  {
    if !Contains(id, IdPrefix) {
      RemoveAllAbsent(id, IdPrefix);
    }
    var s := IdPrefix + id;
    assert s[..|IdPrefix|] == IdPrefix;
    assert s[|IdPrefix|..] == id;
  }

  /** The files a run lists in the state file, before this run's glob: only when the file is configured and exists. */
  function PastFiles(configured: bool, state: Option<seq<string>>): seq<string> {
    if configured && state.Some? then state.value else []
  }

  /** The glob matches not listed from a previous run, in glob order. */
  function Fresh(matches: seq<string>, past: seq<string>): (r: seq<string>)
    ensures forall f :: f in r <==> f in matches && f !in past
    ensures |r| <= |matches|
    decreases |matches|
  {
    if matches == [] then []
    else
      var f := matches[|matches| - 1];
      Fresh(matches[..|matches| - 1], past) + (if f in past then [] else [f])
  }

  /**
   * `harvest_directory`: reads the previous list when the state file is
   * configured and exists, walks the glob matches appending each to
   * `ingested_files` and skipping the past ones, and writes the list back
   * when the state file is configured. `unseen` are the files that reach the
   * parse call.
   */
  method HarvestDirectory(configured: bool, state: Option<seq<string>>, matches: seq<string>)
    returns (unseen: seq<string>, written: Option<seq<string>>)
    ensures unseen == Fresh(matches, PastFiles(configured, state))
    ensures written == if configured then Some(matches) else None
  {
    var pastFiles: seq<string> := [];
    var ingestedFiles: seq<string> := [];
    if configured && state.Some? {
      pastFiles := state.value;
    }
    unseen := [];
    var i := 0;
    while i < |matches|
      invariant 0 <= i <= |matches|
      invariant ingestedFiles == matches[..i]
      invariant unseen == Fresh(matches[..i], pastFiles)
    {
      var fname := matches[i];
      assert matches[..i + 1][..i] == matches[..i];
      ingestedFiles := ingestedFiles + [fname];
      i := i + 1;
      if fname in pastFiles {
        continue;
      }
      unseen := unseen + [fname];
    }
    assert matches[..i] == matches;
    written := None;
    if configured {
      written := Some(ingestedFiles);
    }
  }

  /**
   * A second run over the same directory with the state file the first run
   * wrote reaches no file; over a changed directory it reaches exactly the
   * files the first run did not see, and the state file drops the deleted ones.
   */
  lemma {:induction false} SecondRunSkipsSeenFiles(first: seq<string>, second: seq<string>)
    ensures Fresh(first, PastFiles(true, Some(first))) == []
    ensures forall f :: f in Fresh(second, PastFiles(true, Some(first))) <==> f in second && f !in first
  {
    AllSeen(first, first);
  }

  /** Nothing is unseen when every match is listed. */
  lemma {:induction false} AllSeen(matches: seq<string>, past: seq<string>)
    requires forall k | 0 <= k < |matches| :: matches[k] in past
    ensures Fresh(matches, past) == []
    decreases |matches|
  {
    if matches != [] {
      AllSeen(matches[..|matches| - 1], past);
    }
  }
}
