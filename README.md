# Hesburgh metrics harvesting, modelled in Dafny

The Hesburgh metrics application keeps a reporting database about the
digital objects of a Fedora repository. This project models its harvesting
core:

- **The harvester** (`FedoraObjectHarvester` and its `SingleItem`) walks a
  Fedora search. For each digital object it decides whether the object is
  new or changed:
  - an object is changed when it was modified after the stored row's
    `updated_at`, or when its stored access rights mention an embargo.
  - For a new or changed object it derives the attributes of its
    `fedora_objects` row: model, resource type, mimetype, size, parent pid
    and parent type, dates, access rights and a title cut to 254 characters.
  - It reconciles the object's aggregation keys for the predicates
    `creator#administrative_unit` and `creator#affiliation`.
  - It reconciles the object's edit groups, each with the group's name.
  - An error raised while harvesting a document is collected with the
    document's pid, and the walk goes on. An N-Triples reader fault is
    recorded on the harvester and reading goes on.
- **The weblog harvester** (`HarvestWeblogs`) filters access-log records and
  turns download and view requests into usage events. It also keeps the list
  of log files already ingested, so that a second run skips them.
- **The storage summary** (`fedora-summary.py`) tallies files per namespace
  for the object store and the datastream store, and keeps the largest files
  seen. It combines the two tables and totals them.
- **Three maintenance scripts**:
  - `update_parent_type` recomputes every row's `parent_type`;
  - `load_edit_groups` reloads every object's edit groups;
  - `update_aggregation_keys` backfills blank predicate names and adds
    `creator#affiliation` keys.

The repository, the database and the parsers' outputs are values:

- A repository is a map from pid to a parsed document (`Fedora.Document`).
  Each datastream is a value:
  - descMetadata: N-Triples statements plus where the reader faults;
  - rightsMetadata: what the XPath lookups find;
  - RELS-EXT: its RDF statements;
  - content: its properties.
- The database is a `Records.Store` object. It holds `fedora_objects` rows by
  pid and the aggregation-key and edit-group tables as sets of rows.
- Stateful code is written as methods:
  - the harvester object;
  - `LargestList`, `InfoRecorder` and `TotalCounts` (the script's `InfoRecorder` uses the as-written `LargestList`; a `CorrectedInfoRecorder` uses the corrected list of the finding below);
  - the line record;
  - the scripts' loops over the store.
- Each method is proved equal to a function over values. The properties are
  proved about those functions.
- Today's date (for embargoes) and the clock (for `updated_at`) are
  parameters. So are the order in which `find_each` and a search yield rows,
  and the directory listing.

Modules:

| module | file | models |
|---|---|---|
| `Wrappers` | wrappers.dfy | `Option`, `Result` and `Outcome` |
| `Text` | text.dfy | Ruby and Python string operations: `include?`, `sub`, `gsub`, `split` (trailing empty fields dropped), `slice`, `blank?` and case-insensitive matching (both ASCII only) |
| `RubyInspect` | inspect.dfy | `String#inspect` and `Array#to_s`, as a string column stores an array |
| `Faults` | faults.dfy | the exceptions raised and rescued |
| `NTriples` | ntriples.dfy | `parse_triples` |
| `RelsExt` | relsext.dfy | `parse_xml_relsext` |
| `Rights` | rights.dfy | `parse_xml_rights`, `read_rights`, `embargo_rights`, `parse_edit_groups` |
| `Fedora` | fedora.dfy | documents, `repo.find`, `strip_pid`, `parse_af_model`, the parent-model lookup |
| `Records` | records.dfy | the database tables and the two reconcilers |
| `Harvester` | harvester.dfy | `FedoraObjectHarvester` and `SingleItem` |
| `Weblog` | weblog.dfy | `HarvestWeblogs` |
| `FedoraSummary` | fedora_summary.dfy | `fedora-summary.py` |
| `UpdateParentType` | update_parent_type.dfy | `script/update_parent_type.rb` |
| `LoadEditGroups` | load_edit_groups.dfy | `script/load_edit_groups.rb` |
| `UpdateAggregationKeys` | update_aggregation_keys.dfy | `script/update_aggregation_keys.rb` |

## Model

| member | source | states |
|---|---|---|
| Harvester.FedoraObjectHarvester.constructor | app/services/fedora_object_harvester.rb:31-34 | a new harvester holds the given repository and no exceptions |
| Harvester.FedoraObjectHarvester.Harvest | app/services/fedora_object_harvester.rb:37-44 | harvesting the documents in search order leaves the tables and the exception list that `HarvestAll` computes; the reported list is the collected one |
| Harvester.HarvestAll | app/services/fedora_object_harvester.rb:37-42 | every document of the search gets exactly one outcome |
| Harvester.HarvestAllExtends | app/services/fedora_object_harvester.rb:37-42 | one more document runs one item step on the tables left so far; it appends the step's reader notes, then one tagged error when the step raised |
| Harvester.OneErrorPerFailingDocument | app/services/fedora_object_harvester.rb:38-42 | every error other than a reader fault in the harvester's list is the driver's error for a document whose harvest raised, tagged with that document's pid, in document order, one per failing document |
| Harvester.Raised | app/services/fedora_object_harvester.rb:40-41 | keeps only the errors that are not reader faults, each one taken from the list |
| Harvester.FedoraObjectHarvester.HarvestItem | app/services/fedora_object_harvester.rb:79-97 | `harvest_item` on the store: the tables, the exceptions and the outcome are those of `ItemStep` (update when new or changed, otherwise nothing) |
| Harvester.WriteDecision | app/services/fedora_object_harvester.rb:79-97 | a new object is always written; a stored one is rewritten exactly when it was modified after its `updated_at` or its access rights mention an embargo; otherwise nothing at all happens |
| Harvester.RevisitedOnlyWhileEmbargoed | app/services/fedora_object_harvester.rb:92-97 | after a new object is written (at a time no earlier than its modification), it counts as changed on the next run exactly when its rights carry a future embargo date |
| Harvester.FedoraObjectHarvester.FedoraUpdate | app/services/fedora_object_harvester.rb:100-117 | `fedora_update` on the store: the tables, exceptions and outcome are those of `Update` |
| Harvester.UpdateWrites | app/services/fedora_object_harvester.rb:100-117 | when an attribute raises, or `af_model` or `resource_type` is nil, `update!` changes nothing and no key or group is touched; otherwise the row is written and the keys are reconciled for both predicates |
| Harvester.ApplyWrites | app/services/fedora_object_harvester.rb:100-117 | the same, for any derived attributes: nothing written unless they are complete, then the row and the keys of both predicates |
| Harvester.FedoraObjectHarvester.SingleItemAttributes | app/services/fedora_object_harvester.rb:100-112 | the attribute hash, with the reader notes recorded while computing it, is `Derive`: parent type, then access rights, then title, the first failure stopping it |
| Harvester.TitleCut | app/services/fedora_object_harvester.rb:99-111 | the stored title is a prefix of the derived title, at most 254 characters long, and equal to it when it is short enough |
| Harvester.FedoraObjectHarvester.ReconcileKeysOf | app/services/fedora_object_harvester.rb:113-147 | reconciles the keys of both predicates in order and records one reader note per predicate whose descMetadata faults; other tables are unchanged |
| Harvester.KeyStep | app/services/fedora_object_harvester.rb:113-115 | one more predicate reconciles the keys left by the earlier ones and adds that predicate's reader note |
| Harvester.KeyNotes | app/services/fedora_object_harvester.rb:391-392 | at most one reader note per predicate |
| Harvester.UpdateStoresParsedKeys | app/services/fedora_object_harvester.rb:123-147 | after a write, the object's keys under each predicate are exactly the non-empty values parsed for it, and rows of other objects are untouched |
| Harvester.KeysAfterBothPredicates | app/services/fedora_object_harvester.rb:113-115 | reconciling both predicates leaves each predicate's keys equal to its parsed values and other objects' rows unchanged |
| Harvester.ReconcileTwoPredicates | app/services/fedora_object_harvester.rb:123-147 | the second reconciliation of a different predicate keeps what the first one established |
| Harvester.FedoraObjectHarvester.ReconcileGroupsOf | app/services/fedora_object_harvester.rb:150-180 | `get_and_add_or_delete_edit_groups` on the store is `GroupStep`: rightsMetadata without an edit `machine` raises; a group that cannot be fetched raises; otherwise the groups are reconciled |
| Harvester.FedoraObjectHarvester.LoadGroupNamesFor | app/services/fedora_object_harvester.rb:281-298 | the loaded group entries are `GroupNames` |
| Harvester.GroupNames | app/services/fedora_object_harvester.rb:281-288 | on success, one entry per pid, in order, carrying that pid and the group's name; the failure is never a reader fault; every note is a reader note tagged with the item's pid |
| Harvester.GroupNamesFailurePersists | app/services/fedora_object_harvester.rb:283-286 | once one group fails, loading the rest of the list changes nothing |
| Harvester.FedoraObjectHarvester.ResourceTypeOf | app/services/fedora_object_harvester.rb:198-205 | the resource type is the first `type` value when it is present, else the model; the fault flag says whether the reader faulted |
| Harvester.ResourceTypeSource | app/services/fedora_object_harvester.rb:198-205 | the resource type is the model, or a non-blank `type` value that the descMetadata reader yields |
| Harvester.FedoraObjectHarvester.ParentOf | app/services/fedora_object_harvester.rb:222-252 | the parent pid and parent type are `ParentPid` and `ParentType` |
| Harvester.OwnParent | app/services/fedora_object_harvester.rb:222-252 | a non-GenericFile, and a file without RELS-EXT, is its own parent; a non-GenericFile's parent type is its model; an unstored file without RELS-EXT has parent type `Unknown` |
| Harvester.ParentOfGenericFile | app/services/fedora_object_harvester.rb:222-252 | for a GenericFile whose last `isPartOf` names `und:id`, the parent pid is `id`; when `id` is stored, its model is the parent type whatever the repository holds; otherwise the type is fetched from the repository |
| Harvester.FedoraObjectHarvester.TitleOf | app/services/fedora_object_harvester.rb:255-266 | the title is the content label for a GenericFile (raising when the label is nil), else the first `title` value or `''`; the fault flag marks a reader fault |
| Harvester.FedoraObjectHarvester.AccessRightsOf | app/services/fedora_object_harvester.rb:269-273 | `private` without rightsMetadata, otherwise `parse_xml_rights` |
| Harvester.AccessRightsEmbargo | app/services/fedora_object_harvester.rb:269-273 | the stored access rights mention `embargo` exactly when the rightsMetadata carries an embargo date after today |
| Harvester.KeyNotesAreReaderNotes | app/services/fedora_object_harvester.rb:391-392 | every note recorded while reconciling keys is a reader fault tagged with the item's pid |
| Harvester.DeriveNotes | app/services/fedora_object_harvester.rb:391-392 | the notes recorded while deriving attributes are reader faults tagged with the item's pid, and a failed derivation never fails with a reader fault |
| Harvester.GroupStepNotes | app/services/fedora_object_harvester.rb:391-392 | the same for the edit-group step |
| Harvester.ApplyNotes | app/services/fedora_object_harvester.rb:391-392 | writing and reconciling adds only reader notes and never raises a reader fault |
| Harvester.UpdateNotes | app/services/fedora_object_harvester.rb:391-392 | the same for the whole update |
| Harvester.ItemStepNotes | app/services/fedora_object_harvester.rb:391-392 | the same for one item |
| Fedora.StripPidRemovesFirst | app/services/fedora_object_harvester.rb:88-90 | `strip_pid` removes the leftmost `und:` and nothing else; without one the pid is unchanged |
| Fedora.StripPidOfNamespaced | app/services/fedora_object_harvester.rb:88-90 | `strip_pid` of `und:` + id is the id |
| Fedora.FirstModelIndex | app/services/fedora_object_harvester.rb:187-193 | finds the first `objModels` entry that mentions `afmodel`, or reports that none does |
| Fedora.AfModelCases | app/services/fedora_object_harvester.rb:187-193 | with an afmodel entry the model is that entry's third segment; without one, `each` returns the `objModels` array and the model is its `to_s`, a bracketed list that is never `GenericFile` |
| RubyInspect.UnescapeEscapeBody | app/services/fedora_object_harvester.rb:187-193 | the quoting `to_s` applies to each entry of the returned array loses nothing: reading the escapes back gives the entry |
| RubyInspect.EscapeBodyOfPlain | app/services/fedora_object_harvester.rb:187-193 | an entry without `"`, `\` or `#` appears unchanged inside its quotes |
| RubyInspect.ArrayToS | app/services/fedora_object_harvester.rb:187-193 | the array's `to_s` is bracketed: it starts with `[` and ends with `]` |
| Harvester.ObjectWithoutAfmodelEntry | app/services/fedora_object_harvester.rb:100-111 | an object with no afmodel entry is not a GenericFile; its model, its parent type and (without a `type` value) its resource type are the array's `to_s`, and its row is written whenever its access rights and title can be read |
| Fedora.ModelNameOfEntry | app/services/fedora_object_harvester.rb:187-193 | when the first entry mentioning `afmodel` is `a:b:name`, the model is `name` |
| Fedora.EntryMentionsAfmodel | app/services/fedora_object_harvester.rb:189 | an entry whose middle part mentions `afmodel` mentions it |
| Fedora.FetchedParentTypeUnknown | app/services/fedora_object_harvester.rb:243-247 | a fetched parent without an `afmodel` entry gives `Unknown`; with one, its model name |
| NTriples.ParseTriples | app/services/fedora_object_harvester.rb:379-395 | the values read are `TripleValues` and the fault flag says whether the reader faulted |
| NTriples.ValuesAreMatchingObjects | app/services/fedora_object_harvester.rb:379-395 | a value is returned exactly when the text names the term's URI, the value is non-empty, and a statement with that predicate and object was read before any fault |
| NTriples.Yielded | app/services/fedora_object_harvester.rb:385-393 | the statements read are a prefix of the stream's statements |
| NTriples.FaultKeepsEarlierValues | app/services/fedora_object_harvester.rb:385-393 | a reader fault keeps the values read before it: they are a prefix of what a fault-free stream gives |
| NTriples.ObjectsMembership | app/services/fedora_object_harvester.rb:386-389 | a value is collected exactly when a statement with that predicate and object was read |
| NTriples.NonEmpty | app/services/fedora_object_harvester.rb:394 | `reject(&:empty?)` keeps exactly the non-empty values |
| NTriples.DropEmptyFilters | app/services/fedora_object_harvester.rb:394 | the harvester's values are the scripts' unfiltered values without the empty ones |
| NTriples.LanguageExample | spec/services/fedora_object_harvester_spec.rb:137-140 | the example stream gives `['English']` for `language` |
| RelsExt.ParseXmlRelsext | app/services/fedora_object_harvester.rb:364-375 | the parsed parent is `RelationTarget` |
| RelsExt.LastRelationWins | app/services/fedora_object_harvester.rb:367-374 | the last statement whose predicate ends in `#key` decides the target |
| RelsExt.NoRelationNoTarget | app/services/fedora_object_harvester.rb:374 | without such a statement the target is nil |
| RelsExt.RelationNameOf | app/services/fedora_object_harvester.rb:368 | the relation name is the part after `#` |
| RelsExt.LastRelationTarget | app/services/fedora_object_harvester.rb:364-375 | `ns#key` pointing at `base/id`, as the last relation, gives `id` |
| Rights.Tier | app/services/fedora_object_harvester.rb:339-347 | `public` exactly when `public` is among the texts, `local` exactly when `registered` is and `public` is not, `private` otherwise |
| Rights.ReadRights | app/services/fedora_object_harvester.rb:326-348 | `read_rights` raises without the read `access` or its `machine`, else gives the tier of its groups and persons |
| Rights.ParseXmlRights | app/services/fedora_object_harvester.rb:319-323 | `parse_xml_rights` is `XmlRights`: the tier followed by the embargo suffix |
| Rights.RightsClassification | app/services/fedora_object_harvester.rb:268-273 | the access rights are one of the six documented values, the tier plus ` (embargo)` exactly when the embargo date is after today |
| Rights.EmbargoWordIffFuture | app/services/fedora_object_harvester.rb:352-359 | the rights mention `embargo` exactly when the embargo date is after today |
| Rights.RightsFaults | app/services/fedora_object_harvester.rb:319-359 | `parse_xml_rights` raises exactly when the read access or its machine is missing, the embargo or its machine is missing, or the date cannot be parsed |
| Rights.RightsExamples | spec/services/fedora_object_harvester_spec.rb:115-132 | `public (embargo)`, `local`, `private` and `private` for the four example documents |
| Rights.ParseEditGroups | app/services/fedora_object_harvester.rb:302-315 | `parse_edit_groups` is `EditGroups`, one pid per edit `group` |
| Rights.EditGroupsIgnorePersons | app/services/fedora_object_harvester.rb:308-315 | edit `person` entries do not change the edit groups |
| Records.Store.constructor | db/schema.rb:14-49 | a new store has empty tables |
| Records.Store.ReconcileAggregationKeys | app/services/fedora_object_harvester.rb:123-147 | the rows become `ReconciledKeys`; the keys created are the parsed ones not yet stored; the keys destroyed are the stored ones no longer parsed |
| Records.ReconciledKeysMatchParsed | app/services/fedora_object_harvester.rb:129-146 | after reconciling, the object's keys under the predicate are exactly the parsed keys, and every other row is kept or absent as before |
| Records.ReconcileKeepsExistingRows | app/services/fedora_object_harvester.rb:132-139 | a stored key that is parsed again keeps its row; the only new rows are those for parsed keys not yet stored |
| Records.NoParsedKeysClearsPredicate | app/services/fedora_object_harvester.rb:141-146 | with no parsed keys, every key of the object under the predicate is destroyed |
| Records.ReconcileKeysIdempotent | app/services/fedora_object_harvester.rb:123-147 | reconciling twice with the same keys is reconciling once |
| Records.ReconcileKeysExample | app/services/fedora_object_harvester.rb:123-147 | stored `{a, b}` and parsed `[b, c]` give `{b, c}` |
| Records.Store.ReconcileEditGroups | app/services/fedora_object_harvester.rb:159-179 | the edit-group rows become `ReconciledGroups`; the other tables are unchanged |
| Records.ReconciledGroupsProperties | app/services/fedora_object_harvester.rb:159-179 | every loaded group has its row; a row is removed only when it is the object's row and its group is no longer listed; listed groups' rows are kept; other objects' rows are untouched; the object keeps only listed groups |
| Records.RenamedGroupKeepsStaleRow | app/services/fedora_object_harvester.rb:163-177 | a renamed group keeps its old row next to the new one, because rows are found by pid and name but deleted by pid |
| Text.SubFirstSplices | app/services/fedora_object_harvester.rb:88-90 | `sub` replaces the leftmost occurrence only, or returns the string unchanged |
| Text.Take | app/services/fedora_object_harvester.rb:111 | `slice(0, n)` is a prefix of at most `n` characters, the whole string when it is short enough |
| Text.ThirdSegment | app/services/fedora_object_harvester.rb:191 | `split(':')[2]` of `a:b:c` is `c` |
| Weblog.LineRecord.constructor | app/services/harvest_weblog.rb:57-65 | a record holds the parsed fields and no event or pid yet |
| Weblog.HandleOneRecord | app/services/harvest_weblog.rb:20-55 | a record is dropped, saved as a usage event with its event and stripped pid, or raises, as `Judge` says; the event assigned before a drop or a raise stays on the record; the parsed fields are unchanged |
| Weblog.GuardsDrop | app/services/harvest_weblog.rb:21-24 | only a `200` `GET` whose agent mentions none of `bot`, `spider`, `yahoo`, `ruby` (ignoring case) can be recorded, and every other record is dropped untouched |
| Weblog.RoutePath | app/services/harvest_weblog.rb:27-47 | a routed id always comes with an event, and only the `files`/`citations` route raises, after setting `view` |
| Weblog.SplitTwoSegments | app/services/harvest_weblog.rb:26-27 | `/a/b` splits into `["", a, b]` |
| Weblog.SplitThreeSegments | app/services/harvest_weblog.rb:26-27 | `/a/b/c` splits into `["", a, b, c]` |
| Weblog.DownloadRoute | app/services/harvest_weblog.rb:31-34 | `/downloads/id` is dropped when the path mentions `thumbnail`, dropped with event `download` for an API id, and otherwise recorded as a download of the stripped id |
| Weblog.FilesRouteRaises | app/services/harvest_weblog.rb:35-37 | `/files/x` and `/citations/x` raise after setting the event to `view` |
| Weblog.ConcernRoute | app/services/harvest_weblog.rb:38-43 | `/concern/kind/id` is a view of the stripped id exactly for `generic_files` and `citations` and non-API ids |
| Weblog.PrefixRemoval | app/services/harvest_weblog.rb:51-52 | `gsub('vecnet:', '')` leaves an id without the prefix unchanged and removes a leading prefix |
| Weblog.HarvestDirectory | app/services/harvest_weblog.rb:78-98 | the files not yet ingested are the matches missing from the state file, read only when configured; the state file is rewritten with all matches exactly when configured |
| Weblog.Fresh | app/services/harvest_weblog.rb:87-91 | a match is new exactly when it is not in the past list |
| Weblog.SecondRunSkipsSeenFiles | app/services/harvest_weblog.rb:74-98 | a second run over the same files finds nothing new, and over other files finds exactly those not ingested before |
| Weblog.AllSeen | app/services/harvest_weblog.rb:89 | when every match was ingested before, nothing is new |
| FedoraSummary.SortDesc | script/fedora-summary.py:24 | `sort(reverse=True)` keeps the length and the entries |
| FedoraSummary.SortDescSorted | script/fedora-summary.py:24 | the result is in descending tuple order: size first, then file name |
| FedoraSummary.LargestList.constructor | script/fedora-summary.py:16-19 | a new list is empty with smallest 0 and the given bound |
| FedoraSummary.LargestList.Add | script/fedora-summary.py:21-27 | `add` as written keeps the list sorted, within its bound and with `smallest` its last size, and is `AddAsWritten` |
| FedoraSummary.AppendSortPop | script/fedora-summary.py:22-27 | the append, sort, pop and re-read of `smallest` compute `AddAsWritten` |
| FedoraSummary.AddAsWrittenKeepsInvariant | script/fedora-summary.py:21-27 | `add` keeps the list invariant; it raises only when the bound is not positive; an entry not larger than `smallest` is rejected |
| FedoraSummary.AddAsWrittenTakes | script/fedora-summary.py:21-27 | an entry larger than `smallest` is kept, and the list grows by one up to its bound |
| FedoraSummary.TakenKeepsInvariant | script/fedora-summary.py:22-27 | after an accepted entry, the sorted and popped list is sorted and bounded with `smallest` its last size, and holds the entry |
| FedoraSummary.PopKeepsLarger | script/fedora-summary.py:25-26 | the popped entry is an old one, never the larger new entry |
| FedoraSummary.NotFullListRejects | script/fedora-summary.py:21-27 | with bound 2, after `(10, a)` the entry `(5, b)` is rejected although the list holds one entry |
| FedoraSummary.AddCorrected | script/fedora-summary.py:21-27 | the corrected `add` never raises |
| FedoraSummary.AddCorrectedSorted | script/fedora-summary.py:22-27 | the corrected `add` accepts any entry while the list is not full, and a larger one when it is full; it sorts the list and pops the smallest past the bound |
| FedoraSummary.AddCorrectedKeepsLargest | script/fedora-summary.py:21-27 | after any entry, the corrected list holds the largest of all entries offered so far (as many as the bound allows) and keeps the invariant |
| FedoraSummary.CorrectedLargestList.constructor | script/fedora-summary.py:16-19 | a new corrected list is empty, bounded and has seen nothing |
| FedoraSummary.CorrectedLargestList.Add | script/fedora-summary.py:21-27 | the corrected `add` records the entry as seen and keeps the list equal to the largest entries seen |
| FedoraSummary.AppendSortPopCorrected | script/fedora-summary.py:22-27 | the steps of the corrected `add` compute `AddCorrected` |
| FedoraSummary.InfoRecorder.constructor | script/fedora-summary.py:49-52 | an empty seen table and an empty as-written `LargestList` with the given bound |
| FedoraSummary.InfoRecorder.CountFile | script/fedora-summary.py:56-64 | the file's namespace entry, created when missing, counts one more file and its size |
| FedoraSummary.InfoRecorder.UpdateSeenTable | script/fedora-summary.py:54-65 | each file is counted and then offered under its joined path to the script's `LargestList.add`, until an `IndexError` from `add` ends the method; the table and the list end as `RecordAll` says |
| FedoraSummary.RecordAllProperties | script/fedora-summary.py:54-65 | recording a listing keeps the list sorted, bounded and with `smallest` its last size; it raises only for a non-positive bound; the list holds only entries it held or was offered; and when nothing raised the table is the tally of every file |
| FedoraSummary.AddAsWrittenDrawn | script/fedora-summary.py:21-27 | `add` keeps only entries of the list and the new one |
| FedoraSummary.RecorderMissesSecondFile | script/fedora-summary.py:52-65 | with the bound 20, a directory with files of sizes 10 then 5 leaves only the first in the largest-files list |
| FedoraSummary.CorrectedInfoRecorder.constructor | script/fedora-summary.py:49-52 | a recorder over the corrected list: empty, with the given positive bound, having seen nothing |
| FedoraSummary.CorrectedInfoRecorder.UpdateSeenTable | script/fedora-summary.py:54-65 | with the corrected list, every file is counted and offered, the table is the tally and the list is the largest of all entries offered |
| FedoraSummary.TallyCounts | script/fedora-summary.py:54-64 | after a directory, each namespace counts its earlier files plus that directory's files in it, and its sizes likewise; a namespace is in the table exactly when it was before or a file has it |
| FedoraSummary.Offered | script/fedora-summary.py:62-65 | one entry per file is offered to the largest list |
| FedoraSummary.CombineNamespaceDicts | script/fedora-summary.py:71-82 | the combined keys are both tables' keys, each with the object-store info, the datastream-store info, or both |
| FedoraSummary.TotalCounts.constructor | script/fedora-summary.py:103-106 | all totals start at 0 |
| FedoraSummary.TotalCounts.UpdateTotalCounts | script/fedora-summary.py:107-115 | adds the object count, the file count of both stores and the size of both, where a missing side counts 0 |
| FedoraSummary.TotalsOfCombined | script/fedora-summary.py:122-131 | totalling the combined table over the sorted keys gives the object store's count, both stores' count and both stores' size |
| UpdateParentType.UpdateParentTypes | script/update_parent_type.rb:13-46 | every visited row is `Retyped` against the table as it was before the run, other rows are unchanged, and the exceptions are `Errors` |
| UpdateParentType.VisitRow | script/update_parent_type.rb:17-40 | one loop body on the store: the row is retyped and its error, if any, returned |
| UpdateParentType.Retyped | script/update_parent_type.rb:18-36 | only `parent_type` and `updated_at` change; a changed row was saved at `now` with the new parent type; a success always sets the new parent type |
| UpdateParentType.FetchParentType | script/update_parent_type.rb:24-31 | the repository branch is `FetchedThroughRelsExt` |
| UpdateParentType.OtherModelsAreTheirOwnParent | script/update_parent_type.rb:33-35 | a row whose model is not `GenericFile` gets its own model as parent type |
| UpdateParentType.CachedParentNeedsNoFetch | script/update_parent_type.rb:19-22 | a file whose parent row is stored takes that row's model, whatever the repository holds |
| UpdateParentType.FetchedParentRule | script/update_parent_type.rb:24-31 | otherwise the parent named by RELS-EXT `isPartOf` gives its model, or `Unknown` when it has no `afmodel` entry |
| UpdateParentType.FetchFailures | script/update_parent_type.rb:25-28 | a missing object, a missing RELS-EXT (the row is then not saved) and a missing parent each raise |
| UpdateParentType.Errors | script/update_parent_type.rb:37-39 | at most one error per row |
| UpdateParentType.ErrorsAreTheFailures | script/update_parent_type.rb:37-39 | no error is collected exactly when every row's parent type is found, and each error is a visited row's failure, tagged with its pid |
| UpdateParentType.SecondRunChangesNothing | script/update_parent_type.rb:16-41 | a second run over the retyped table changes no row |
| LoadEditGroups.GetGroupNameForPid | script/load_edit_groups.rb:75-87 | the name is `GroupNameFor`: `Group does not exist` when the group cannot be fetched or has no descMetadata, `''` when the loaded object has none, else the first title or `''` |
| LoadEditGroups.AgreesWithHarvester | script/load_edit_groups.rb:75-87 | where the harvester raises, the script names the group `Group does not exist`; otherwise both give the same name, except that the harvester's `Group name not found` is `''` here |
| LoadEditGroups.LoadGroupNamesFor | script/load_edit_groups.rb:66-73 | one entry per pid, in order, with that pid and its name |
| LoadEditGroups.VisitObject | script/load_edit_groups.rb:21-53 | a visit that raises changes no row |
| LoadEditGroups.VisitRow | script/load_edit_groups.rb:21-53 | the loop body on the store is `VisitObject`; the other tables are unchanged |
| LoadEditGroups.VisitProperties | script/load_edit_groups.rb:21-49 | other objects' rows are untouched; a visit that changes rows passed, fetched the object, found its edit groups, stored a row for each with its name, and left the object only rows of listed groups |
| LoadEditGroups.NoRightsMetadata | script/load_edit_groups.rb:25-49 | without rightsMetadata no row changes, and the visit raises exactly when the object has rows |
| LoadEditGroups.WriteEditGroups | script/load_edit_groups.rb:17-58 | the script on the store gives the rows and errors of `LoadAll` |
| LoadEditGroups.LoadAll | script/load_edit_groups.rb:20-53 | at most one error per object |
| LoadEditGroups.RunProperties | script/load_edit_groups.rb:20-53 | rows of objects not visited are untouched, and every error names a visited object |
| UpdateAggregationKeys.Backfill | script/update_aggregation_keys.rb:15 | a blank or nil predicate name becomes `creator#administrative_unit`; any other row is unchanged; no result is blank |
| UpdateAggregationKeys.UpdatePredicateNames | script/update_aggregation_keys.rb:13-21 | the backfill visits every row once: the rows become `Backfilled`, other tables unchanged |
| UpdateAggregationKeys.BackfillProperties | script/update_aggregation_keys.rb:14-16 | afterwards no row is blank; non-blank rows stay; blank rows get the administrative unit; object and key are kept |
| UpdateAggregationKeys.BackfillIdempotent | script/update_aggregation_keys.rb:15 | a second backfill changes nothing |
| UpdateAggregationKeys.AddMissingKeys | script/update_aggregation_keys.rb:38-44 | adds an affiliation row per value; creates exactly the values the object did not have yet, each once |
| UpdateAggregationKeys.VisitRow | script/update_aggregation_keys.rb:27-52 | the loop body on the store is `VisitObject` |
| UpdateAggregationKeys.UpdateAcademicStatus | script/update_aggregation_keys.rb:23-57 | the rows and messages are those of `StatusAll` |
| UpdateAggregationKeys.StatusAll | script/update_aggregation_keys.rb:23-57 | rows are only added, with at most two messages per object |
| UpdateAggregationKeys.StatusOnlyAdds | script/update_aggregation_keys.rb:38-44 | every added row is an affiliation of a visited, fetched object, and every such affiliation ends up stored |
| UpdateAggregationKeys.DeletePassRaises | script/update_aggregation_keys.rb:45-48 | the delete pass deletes nothing and raises exactly when the object had an affiliation row or now has an affiliation value |
| UpdateAggregationKeys.KeepsEmptyValues | script/update_aggregation_keys.rb:60-76 | the script stores the harvester's affiliation values plus possibly the empty string |
| UpdateAggregationKeys.UpdateAggregationKeys | script/update_aggregation_keys.rb:83-84 | the script is the backfill followed by the academic status on the backfilled rows |

## Left out

- I/O is not modelled:
  - connecting to Fedora (`Rubydora.connect`, `Figaro`);
  - Raven/Airbrake reporting;
  - `Rails.logger`, `$stderr`, `print`;
  - reading gzip files, `Dir.glob`, the JSON state file;
  - `os.walk`, `os.stat`.

  These are parameters or values: the search results, the document map, `find_each` order, the directory listing and the file sizes. Logging the collected errors only when there are some is output, so it is not modelled.
- Parsing is not modelled:
  - N-Triples, RDF/XML (RELS-EXT) and REXML are taken as already parsed: statements, and where the N-Triples reader faults;
  - `Date.parse` is replaced by a parsed day or an unparseable date;
  - `Time.zone.today` and the clock are integers passed in.
- `parse_file_gz` (the field split, `strptime`, `URI.unescape`) is not modelled, and `harvest_directory` does not call it (the call is commented out).
- Weblog: the `catalog` route is not modelled. `"catalog" && p.length == 3` evaluates to a boolean, which never equals a path segment, so the route never matches.
- Weblog: `LineRecord` declares no accessors for `method`, `path`, `status`, `pubtkt` or `user`. The model gives it the fields `parse_file_gz` assigns, as evidently intended, and the saved event carries no user name.
- `fedora_object_edit_groups`: `FedoraObject` declares no such association. The edit-group delete passes of the harvester and of `load_edit_groups` are modelled as the association would make them behave.
- `parse_af_model` returns the whole `objModels` array when no entry mentions `afmodel`. Rails 4.2 casts an array assigned to a string column with `to_s`, so the row is written with `af_model` (and `parent_type`, and `resource_type` without a `type` value) equal to text like `["info:fedora/fedora-system:FedoraObject-3.0"]`, and the keys and groups are reconciled. The model does the same (`Fedora.AfModel`, `Harvester.ObjectWithoutAfmodelEntry`). A nil `af_model` remains only when the first afmodel entry has fewer than three `:`-segments; then the `NOT NULL` column refuses the row.
- RubyInspect.Inspect: escapes `"`, `\` and a `#` before `{`, `$` or `@`, as Ruby's `String#inspect` does; the escapes of non-printable characters (`\n`, `\e`, `\u0001`, …) are not modelled.
- Text.IsBlank: `IsSpace` holds only for the ASCII white-space characters. ActiveSupport's `blank?` also treats Unicode spaces (U+00A0, U+3000, …) as blank, so a value made of those counts as present in the model.
- Text.ContainsIgnoringCase: `Lower` folds only `A`-`Z`. Ruby's `/i` folds Unicode case too (`ſpider` matches `/spider/i`), so non-ASCII case variants of a robot name are not matched in the model.
- Tables are sets of rows without ids. Two aggregation-key rows that differ only in a blank versus nil predicate name become one row after the backfill.
- `size_to_human` and `ns_tuple_to_str` only format output, so they are not modelled. The namespace regular expression is not modelled either: each file carries its namespace.
- FedoraSummary.CorrectedLargestList.constructor: requires a positive bound. With a bound of 0 the source's `add` raises `IndexError` after the pop, which `LargestList.Add` (the as-written member) models.
- FedoraSummary.CorrectedInfoRecorder.constructor: requires a positive bound, for the same reason. The script's `InfoRecorder` (modelled with the as-written list, no such requirement) always uses 20.
- FedoraSummary.AddCorrected: requires a positive bound, for the same reason.
- UpdateParentType: RELS-EXT is read as `nil.content` when it is missing. That raises before `save!`, so the `Unknown` assigned just before is never stored. The model has the error and an unchanged row.
- The text of the collected messages (`inspect`, backtraces) is not modelled. A message is its pid and the fault.
- ActiveRecord's dirty tracking is modelled only as far as `updated_at` goes. A save that changes no attribute leaves the row, `updated_at` included, as it was. Timestamps other than `updated_at` are not modelled.

## Findings

| source | as written | input that shows it | evidently intended | confidence | as-written member | corrected member |
|---|---|---|---|---|---|---|
| script/fedora-summary.py:21-27 | `add` accepts an entry only when it is larger than `smallest`, even when the list is not full yet | bound 2: add `(10, "a")`, then `(5, "b")`; the second entry is rejected and the list keeps one entry | keep the largest `max` files seen: accept any entry while the list has room | not executed | FedoraSummary.NotFullListRejects | FedoraSummary.AddCorrectedKeepsLargest |
