/**
 * The MARC record model the readers and specifications work on: a record is
 * an identity (its control number), an ordered sequence of fields and a list
 * of non-fatal decode errors. `RecordSource` stands for the lower-level
 * MarcReader that decodes the physical records: a sequence of pull outcomes
 * and a cursor.
 */
module Marc {
  import opened Wrappers

  /** A subfield of a data field: a one-character code and its data. */
  datatype Subfield = Subfield(code: char, data: string)

  /** A control field (tag and raw data) or a data field (tag, two indicators, subfields). */
  datatype Field =
    | ControlField(tag: string, data: string)
    | DataField(tag: string, ind1: char, ind2: char, subfields: seq<Subfield>)

  /** A non-fatal error that the decoder recorded on a record. */
  datatype DecodeError = DecodeError(message: string)

  /** The value of a record at one moment: identity, fields in order, decode errors. */
  datatype RecordValue = RecordValue(controlNumber: Option<string>, fields: seq<Field>, errors: seq<DecodeError>)

  /** The first subfield carrying `code`, as a data field's getSubfield(code) finds it. */
  function GetSubfield(subfields: seq<Subfield>, code: char): (r: Option<Subfield>)
    ensures r.Some? ==> r.value.code == code
  {
    if subfields == [] then None
    else if subfields[0].code == code then Some(subfields[0])
    else GetSubfield(subfields[1..], code)
  }

  /** getSubfield finds nothing exactly when no subfield has the code, and
      otherwise the earliest one that has it. */
  lemma {:induction false} GetSubfieldIsFirst(subfields: seq<Subfield>, code: char)
    ensures GetSubfield(subfields, code).None? <==> forall i :: 0 <= i < |subfields| ==> subfields[i].code != code
    ensures GetSubfield(subfields, code).Some? ==>
              exists i :: 0 <= i < |subfields| && subfields[i] == GetSubfield(subfields, code).value
                          && forall j :: 0 <= j < i ==> subfields[j].code != code
  {
    if subfields != [] && subfields[0].code != code {
      GetSubfieldIsFirst(subfields[1..], code);
      assert forall i :: 1 <= i < |subfields| ==> subfields[i] == subfields[1..][i - 1];
      if GetSubfield(subfields, code).Some? {
        var k :| 0 <= k < |subfields[1..]| && subfields[1..][k] == GetSubfield(subfields, code).value
                 && forall j :: 0 <= j < k ==> subfields[1..][j].code != code;
        assert subfields[k + 1] == GetSubfield(subfields, code).value;
      }
    }
  }

  /** A record object; merging continuation records changes its fields and errors in place. */
  class Record {
    const controlNumber: Option<string>
    var fields: seq<Field>
    var errors: seq<DecodeError>

    constructor (v: RecordValue)
      ensures Value() == v
    {
      controlNumber := v.controlNumber;
      fields := v.fields;
      errors := v.errors;
    }

    /** The current value of this record. */
    function Value(): RecordValue
      reads this
    {
      RecordValue(controlNumber, fields, errors)
    }

    predicate HasErrors()
      reads this
    {
      |errors| > 0
    }
  }

  /** What one pull from the decoder gives: a decoded record, or a failure to read one. */
  datatype Pull = Got(value: RecordValue) | Broken(cause: string)

  /** The lower-level MarcReader: the outcomes of its pulls, in order, and how many were taken. */
  class RecordSource {
    const items: seq<Pull>
    var pos: nat

    ghost predicate Valid()
      reads this
    {
      pos <= |items|
    }

    constructor (items: seq<Pull>)
      ensures Valid() && this.items == items && pos == 0
    {
      this.items := items;
      pos := 0;
    }

    /** The pulls not yet taken. */
    function Pending(): seq<Pull>
      reads this
      requires Valid()
    {
      items[pos..]
    }

    predicate HasNext()
      reads this
    {
      pos < |items|
    }

    /** Takes the next pull: a freshly decoded record, or the failure it raises. */
    method Next() returns (r: Result<Record, string>)
      requires Valid() && HasNext()
      modifies this
      ensures Valid() && pos == old(pos) + 1
      ensures match items[old(pos)]
        case Got(v) => r.Success? && fresh(r.value) && r.value.Value() == v
        case Broken(cause) => r == Failure(cause)
    {
      match items[pos] {
        case Got(v) =>
          var rec := new Record(v);
          r := Success(rec);
        case Broken(cause) =>
          r := Failure(cause);
      }
      pos := pos + 1;
    }
  }
}
