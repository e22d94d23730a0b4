/**
 * The Hydra rightsMetadata readers: `parse_xml_rights` with `read_rights` and
 * `embargo_rights`, which give an object its access-rights string, and
 * `parse_edit_groups` with `edit_rights`, which list its edit groups.
 *
 * The XML document is given already parsed: for each element the XPath
 * lookups reach, whether it is there and, for `group`, `person` and `date`,
 * its text. An element with no text is read as the empty string; every use
 * of such a text in the source either compares it with a word or calls
 * `to_s` on it, which gives the same result.
 */
module Rights {
  import opened Wrappers
  import opened Text
  import opened Faults

  /** The `machine` element of an `access` block: its group and person texts, in document order. */
  datatype Machine = Machine(groups: seq<string>, persons: seq<string>)

  /** An `access` element; `machine` is absent when the element has no `machine` child. */
  datatype Access = Access(machine: Option<Machine>)

  /**
   * The `date` element under `embargo/machine`: with no text (`first.blank?`),
   * with a text `Date.parse` rejects, or with a day, counted in days.
   */
  datatype EmbargoDate = BlankDate | UnparseableDate | Day(day: int)

  datatype EmbargoMachine = EmbargoMachine(date: Option<EmbargoDate>)

  datatype Embargo = Embargo(machine: Option<EmbargoMachine>)

  /**
   * What the XPath lookups `//access[@type='read']`, `//access[@type='edit']`
   * and `//embargo` find in a rightsMetadata document (a document without a
   * root element finds nothing).
   */
  datatype RightsMetadata = RightsMetadata(read: Option<Access>, edit: Option<Access>, embargo: Option<Embargo>)

  const Public := "public"
  const Local := "local"
  const Private := "private"
  const EmbargoMark := " (embargo)"

  /**
   * The access tier of the read texts: `public` wins over `registered`
   * (reported as `local`), and everything else is `private`.
   */
  function Tier(texts: seq<string>): (r: string)
    ensures r == Public <==> "public" in texts
    ensures r == Local <==> "public" !in texts && "registered" in texts
    ensures r == Private <==> "public" !in texts && "registered" !in texts
  {
    if "public" in texts then Public
    else if "registered" in texts then Local
    else if "private" in texts then Private
    else Private
  }

  /**
   * What `read_rights` returns: the tier of the machine group texts followed
   * by the machine person texts; calling `elements` on a missing `access` or
   * `machine` element raises `NoMethodError`.
   */
  function ReadTier(access: Option<Access>): Result<string, Fault> {
    if access.None? then Failure(NilReceiver("access[@type='read']"))
    else if access.value.machine.None? then Failure(NilReceiver("machine"))
    else
      var m := access.value.machine.value;
      Success(Tier(m.groups + m.persons))
  }

  /**
   * `read_rights`: pushes the group texts, then the person texts, onto
   * `rights_array` and classifies it.
   */
  method ReadRights(access: Option<Access>) returns (r: Result<string, Fault>)
    ensures r == ReadTier(access)
  {
    if access.None? {
      return Failure(NilReceiver("access[@type='read']"));
    }
    if access.value.machine.None? {
      return Failure(NilReceiver("machine"));
    }
    var m := access.value.machine.value;
    var rightsArray: seq<string> := [];
    var i := 0;
    while i < |m.groups|
      invariant 0 <= i <= |m.groups|
      invariant rightsArray == m.groups[..i]
    {
      rightsArray := rightsArray + [m.groups[i]];
      i := i + 1;
    }
    var j := 0;
    while j < |m.persons|
      invariant 0 <= j <= |m.persons|
      invariant rightsArray == m.groups + m.persons[..j]
    {
      rightsArray := rightsArray + [m.persons[j]];
      j := j + 1;
    }
    assert m.persons[..j] == m.persons;
    if "public" in rightsArray {
      r := Success(Public);
    } else if "registered" in rightsArray {
      r := Success(Local);
    } else if "private" in rightsArray {
      r := Success(Private);
    } else {
      r := Success(Private);
    }
  }

  /**
   * `embargo_rights(...).to_s`: `" (embargo)"` when the machine embargo date
   * is strictly after `today`, and the empty string (`nil.to_s`) when there
   * is no date, the date is blank or it is not after today. A missing
   * `embargo` or `machine` element raises `NoMethodError`, and a date
   * `Date.parse` rejects raises `ArgumentError`.
   */
  function EmbargoSuffix(embargo: Option<Embargo>, today: int): Result<string, Fault> {
    if embargo.None? then Failure(NilReceiver("embargo"))
    else if embargo.value.machine.None? then Failure(NilReceiver("machine"))
    else
      var date := embargo.value.machine.value.date;
      if date.None? || date.value.BlankDate? then Success("")
      else if date.value.UnparseableDate? then Failure(InvalidDate)
      else if date.value.day > today then Success(EmbargoMark)
      else Success("")
  }

  /**
   * What `parse_xml_rights` returns: the read tier, then the embargo suffix;
   * the read block is evaluated first, so its fault is the one raised.
   */
  function XmlRights(doc: RightsMetadata, today: int): Result<string, Fault> {
    match ReadTier(doc.read)
    case Failure(f) => Failure(f)
    case Success(tier) =>
      match EmbargoSuffix(doc.embargo, today)
      case Failure(f) => Failure(f)
      case Success(suffix) => Success(tier + suffix)
  }

  /** `parse_xml_rights`: `read_rights(...) + embargo_rights(...).to_s`. */
  method ParseXmlRights(doc: RightsMetadata, today: int) returns (r: Result<string, Fault>)
    ensures r == XmlRights(doc, today)
  {
    var tier := ReadRights(doc.read);
    if tier.Failure? {
      return Failure(tier.error);
    }
    var suffix := EmbargoSuffix(doc.embargo, today);
    if suffix.Failure? {
      return Failure(suffix.error);
    }
    r := Success(tier.value + suffix.value);
  }

  /** The embargo date is a day strictly after `today`. */
  predicate EmbargoedAfter(doc: RightsMetadata, today: int) {
    && doc.embargo.Some?
    && doc.embargo.value.machine.Some?
    && doc.embargo.value.machine.value.date.Some?
    && doc.embargo.value.machine.value.date.value.Day?
    && doc.embargo.value.machine.value.date.value.day > today
  }

  /** The set of the six possible access-rights strings. */
  function RightsStrings(): set<string> {
    {Public, Public + EmbargoMark, Local, Local + EmbargoMark, Private, Private + EmbargoMark}
  }

  /**
   * The access-rights string is one of the six values, its tier is the one
   * of the read texts, and it carries the embargo mark exactly when the
   * embargo date is after today.
   */
  lemma RightsClassification(doc: RightsMetadata, today: int)
    requires XmlRights(doc, today).Success?
    ensures XmlRights(doc, today).value in RightsStrings()
    ensures
      var m := doc.read.value.machine.value;
      XmlRights(doc, today).value == Tier(m.groups + m.persons) + (if EmbargoedAfter(doc, today) then EmbargoMark else "")
  {
    var tier := ReadTier(doc.read).value;
    assert tier == Public || tier == Local || tier == Private;
    assert tier + "" == tier;
  }

  /**
   * Whether the access-rights string contains `embargo` (the word the write
   * decision looks for) is exactly whether the embargo date is after today.
   */
  lemma EmbargoWordIffFuture(doc: RightsMetadata, today: int)
    requires XmlRights(doc, today).Success?
    ensures Contains(XmlRights(doc, today).value, "embargo") <==> EmbargoedAfter(doc, today)
  {
    var tier := ReadTier(doc.read).value;
    if EmbargoedAfter(doc, today) {
      assert tier + EmbargoMark == tier + " (" + "embargo" + ")";
      ContainsInfix(tier + " (", "embargo", ")");
    } else {
      ContainsShort(tier, "embargo");
    }
  }

  /**
   * The parse fails exactly when one of the elements the readers dereference
   * is missing or the embargo date cannot be parsed.
   */
  lemma RightsFaults(doc: RightsMetadata, today: int)
    ensures XmlRights(doc, today).Failure? <==>
      || doc.read.None? || doc.read.value.machine.None?
      || doc.embargo.None? || doc.embargo.value.machine.None?
      || doc.embargo.value.machine.value.date == Some(UnparseableDate)
  {
  }

  /**
   * The cases of the repository's own tests: a public read group with an
   * embargo date after today gives `public (embargo)`; a registered group
   * with no embargo date gives `local`; an unknown group, and an explicit
   * private person, give `private`.
   */
  lemma RightsExamples(today: int)
    ensures XmlRights(RightsMetadata(Some(Access(Some(Machine(["public"], [])))), None,
                                     Some(Embargo(Some(EmbargoMachine(Some(Day(today + 1))))))), today)
            == Success("public (embargo)")
    ensures XmlRights(RightsMetadata(Some(Access(Some(Machine(["registered"], [])))), None,
                                     Some(Embargo(Some(EmbargoMachine(None))))), today)
            == Success("local")
    ensures XmlRights(RightsMetadata(Some(Access(Some(Machine(["something"], [])))), None,
                                     Some(Embargo(Some(EmbargoMachine(None))))), today)
            == Success("private")
    ensures XmlRights(RightsMetadata(Some(Access(Some(Machine([], ["private"])))), None,
                                     Some(Embargo(Some(EmbargoMachine(None))))), today)
            == Success("private")
  {
    assert ["public"] + [] == ["public"];
    assert Public + EmbargoMark == "public (embargo)";
    assert "public" in ["public"];
    assert ["registered"] + [] == ["registered"];
    assert "public" != "registered" && "registered" in ["registered"];
    assert "public" !in ["registered"];
    assert Tier(["registered"]) == Local;
    assert ["something"] + [] == ["something"];
    assert "public" != "something" && "registered" != "something";
    assert Local + "" == "local" && Private + "" == "private";
  }

  /**
   * What `edit_rights` returns for the `//access[@type='edit']` element: the
   * machine group texts in document order (persons are not edit groups).
   */
  function EditGroups(doc: RightsMetadata): Result<seq<string>, Fault> {
    if doc.edit.None? then Failure(NilReceiver("access[@type='edit']"))
    else if doc.edit.value.machine.None? then Failure(NilReceiver("machine"))
    else Success(doc.edit.value.machine.value.groups)
  }

  /** `parse_edit_groups` and `edit_rights`: pushes each group text onto `rights_array`. */
  method ParseEditGroups(doc: RightsMetadata) returns (r: Result<seq<string>, Fault>)
    ensures r == EditGroups(doc)
    ensures r.Success? ==> |r.value| == |doc.edit.value.machine.value.groups|
  {
    if doc.edit.None? {
      return Failure(NilReceiver("access[@type='edit']"));
    }
    if doc.edit.value.machine.None? {
      return Failure(NilReceiver("machine"));
    }
    var groups := doc.edit.value.machine.value.groups;
    var rightsArray: seq<string> := [];
    var i := 0;
    while i < |groups|
      invariant 0 <= i <= |groups|
      invariant rightsArray == groups[..i]
    {
      rightsArray := rightsArray + [groups[i]];
      i := i + 1;
    }
    assert groups[..i] == groups;
    r := Success(rightsArray);
  }

  /**
   * The edit groups do not depend on the person texts, nor on the read or
   * embargo blocks.
   */
  lemma EditGroupsIgnorePersons(doc: RightsMetadata, persons: seq<string>, other: RightsMetadata)
    requires doc.edit.Some? && doc.edit.value.machine.Some?
    ensures
      var m := doc.edit.value.machine.value;
      EditGroups(other.(edit := Some(Access(Some(m.(persons := persons)))))) == Success(m.groups)
  {
  }
}
