/**
 * SingleLinkedDataFieldSpecification: a field specification that selects the
 * 880 fields (alternate graphic representations) linked to a given tag. The
 * configured tag carries the linked tag after its first three characters; a
 * field matches when it is an 880 field whose first linkage subfield `6`
 * starts with that linked tag.
 */
module SingleLinkedSpec {
  import opened Wrappers
  import opened Marc

  /** The tag every linked field carries. */
  const LinkedFieldTag: string := "880"

  /** A condition attached to a specification; its evaluation belongs to the
      inherited specification and is not part of this model. */
  datatype Condition = Condition(text: string)

  /** specMatches casts the field to a data field: a control field that reaches
      the cast throws ClassCastException. */
  datatype SpecError = ClassCast(tag: string)

  /** The data of the first linkage subfield, when the field is a data field that has one. */
  function Linkage(f: Field): (r: Option<string>)
    requires f.DataField?
    ensures r.Some? <==> exists i :: 0 <= i < |f.subfields| && f.subfields[i].code == '6'
    ensures r.Some? ==> exists i :: 0 <= i < |f.subfields| && f.subfields[i] == Subfield('6', r.value)
                                   && forall j :: 0 <= j < i ==> f.subfields[j].code != '6'
  {
    GetSubfieldIsFirst(f.subfields, '6');
    match GetSubfield(f.subfields, '6')
    case None => None
    case Some(sf) => Some(sf.data)
  }

  class SingleLinkedDataFieldSpecification {
    /** The tags the specification selects on; slot 0 is overwritten with "880". */
    const tags: array<string>
    const subfields: string
    const cond: Option<Condition>
    /** The configured tag without its first three characters. */
    const lnkTag: string

    ghost predicate Valid()
      reads tags
    {
      tags.Length == 1 && tags[0] == LinkedFieldTag
    }

    /** The three-argument constructor: the inherited specification records the
        configured tag, then the linked tag is cut from it and the selected tag
        becomes "880". */
    constructor (tag: string, subfields: string, cond: Option<Condition>)
      requires |tag| >= 3
      ensures Valid() && fresh(tags)
      ensures lnkTag == tag[3..] && tag == tag[..3] + lnkTag
      ensures this.subfields == subfields && this.cond == cond
    {
      tags := new string[1](_ => tag);
      this.subfields := subfields;
      this.cond := cond;
      lnkTag := tag[3..];
      new;
      tags[0] := LinkedFieldTag;
    }

    /** The two-argument constructor: the three-argument one without a condition. */
    static method WithoutCondition(tag: string, subfields: string) returns (s: SingleLinkedDataFieldSpecification)
      requires |tag| >= 3
      ensures s.Valid() && fresh(s) && fresh(s.tags)
      ensures s.lnkTag == tag[3..] && s.subfields == subfields && s.cond == None
    {
      s := new SingleLinkedDataFieldSpecification(tag, subfields, None);
    }

    /** The private copy constructor: same subfields, condition and linked tag,
        with a tags array of its own whose slot 0 is "880". */
    constructor Copy(toClone: SingleLinkedDataFieldSpecification)
      ensures Valid() && fresh(tags)
      ensures lnkTag == toClone.lnkTag && subfields == toClone.subfields && cond == toClone.cond
    {
      tags := new string[1](_ => LinkedFieldTag);
      subfields := toClone.subfields;
      cond := toClone.cond;
      lnkTag := toClone.lnkTag;
      new;
      tags[0] := LinkedFieldTag;
    }

    /** A copy for another thread: a new object that shares no mutable state
        with this one and matches exactly the fields this one matches. */
    method MakeThreadSafeCopy() returns (c: SingleLinkedDataFieldSpecification)
      ensures fresh(c) && fresh(c.tags) && c.Valid()
      ensures c.lnkTag == lnkTag
      ensures forall tag, f :: c.SpecMatches(tag, f) == SpecMatches(tag, f)
    {
      c := new SingleLinkedDataFieldSpecification.Copy(this);
    }

    /** specMatches: the tag must be "880"; only then is the field cast to a data
        field and its first subfield `6` tested for starting with the linked tag. */
    function SpecMatches(tag: string, f: Field): (r: Result<bool, SpecError>)
      ensures r.Failure? <==> tag == LinkedFieldTag && f.ControlField?
      ensures r == Success(true) <==>
                tag == LinkedFieldTag && f.DataField? && Linkage(f).Some? && lnkTag <= Linkage(f).value
    {
      if tag != LinkedFieldTag then Success(false)
      else if f.ControlField? then Failure(ClassCast(tag))
      else match Linkage(f)
        case None => Success(false)
        case Some(data) => Success(lnkTag <= data)
    }
  }

  /** A field reached under any tag other than "880" never matches, whatever the field. */
  lemma OtherTagsNeverMatch(s: SingleLinkedDataFieldSpecification, tag: string, f: Field)
    requires tag != LinkedFieldTag
    ensures s.SpecMatches(tag, f) == Success(false)
  {
  }

  /** An 880 data field without a linkage subfield does not match. */
  lemma UnlinkedFieldNeverMatches(s: SingleLinkedDataFieldSpecification, f: Field)
    requires f.DataField? && forall i :: 0 <= i < |f.subfields| ==> f.subfields[i].code != '6'
    ensures s.SpecMatches(LinkedFieldTag, f) == Success(false)
  {
  }

  /** A three-character configured tag leaves the linked tag empty: then every
      880 data field that has a linkage subfield matches. */
  lemma EmptyLinkMatchesEveryLinkedField(s: SingleLinkedDataFieldSpecification, f: Field, k: nat)
    requires s.lnkTag == []
    requires f.DataField? && k < |f.subfields| && f.subfields[k].code == '6'
    ensures s.SpecMatches(LinkedFieldTag, f) == Success(true)
  {
  }

  /** Only the first linkage subfield counts: a later `6` subfield that starts
      with the linked tag does not make the field match when the first does not. */
  lemma {:induction false} OnlyFirstLinkageCounts(s: SingleLinkedDataFieldSpecification, f: Field, i: nat)
    requires f.DataField? && i < |f.subfields| && f.subfields[i].code == '6'
    requires forall j :: 0 <= j < i ==> f.subfields[j].code != '6'
    ensures s.SpecMatches(LinkedFieldTag, f) == Success(s.lnkTag <= f.subfields[i].data)
  {
    var subs := f.subfields;
    assert Linkage(f).Some?;
    var k :| 0 <= k < |subs| && subs[k] == Subfield('6', Linkage(f).value)
             && forall j :: 0 <= j < k ==> subs[j].code != '6';
    assert k == i;
  }
}
