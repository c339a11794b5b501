/**
 * RawRecordReader: copies from a stream of binary MARC (ISO 2709) records
 * every record whose body contains a search string. Each record starts with a
 * 24-byte label whose first five characters give the record's total length in
 * decimal (MARC 21 Leader/00-04); the reader takes the label, then the rest of
 * the record, and writes both unchanged when the body matches.
 */
module RawRecordReader {
  import opened Wrappers
  import Decimal

  newtype byte = x: int | 0 <= x < 256

  /** The length of the record label, which starts every record. */
  const LabelLength: nat := 24
  /** The number of label characters that hold the record length. */
  const LengthDigits: nat := 5

  /** Why the copy loop ends. */
  datatype Stop =
    /** The input ends inside a label or a body (EOFException, silent). */
    | EndOfInput
    /** The record length is not an integer (IOException, logged). */
    | UnparsableLength
    /** The record length is below the label length, so the body buffer would
        have a negative size (NegativeArraySizeException, not caught). */
    | NegativeBodyLength(recordLength: int)

  /** The five characters parseRecordLength reads from the label: one character
      per byte while there are bytes, the character array's initial '\0' after. */
  function LengthText(leaderData: seq<byte>): (text: string)
    ensures |text| == LengthDigits
    ensures forall i :: 0 <= i < LengthDigits && i < |leaderData| ==> text[i] == leaderData[i] as int as char
  {
    seq(LengthDigits, i requires 0 <= i < LengthDigits => if i < |leaderData| then leaderData[i] as int as char else '\0')
  }

  /** parseRecordLength: the decimal integer in the label's first five
      characters, or None where parseInt fails (then IOException). */
  function ParseRecordLength(leaderData: seq<byte>): (r: Option<int>)
  {
    Decimal.ParseInt(LengthText(leaderData))
  }

  /** The five ASCII digits of `n`, zero-padded, as a writer of records puts
      them at the head of the label. */
  function LengthField(n: nat, width: nat): (digits: seq<byte>)
    ensures |digits| == width
    ensures forall i :: 0 <= i < width ==> 48 <= digits[i] <= 57
    decreases width
  {
    if width == 0 then [] else LengthField(n / 10, width - 1) + [(48 + n % 10) as byte]
  }

  function Power10(k: nat): (p: nat)
    ensures p >= 1
  {
    if k == 0 then 1 else 10 * Power10(k - 1)
  }

  /** The digits of a zero-padded field wide enough for `n` read back as `n`. */
  lemma {:induction false} LengthFieldValue(n: nat, width: nat)
    requires n < Power10(width)
    ensures var text := seq(width, i requires 0 <= i < width => LengthField(n, width)[i] as int as char);
            Decimal.AllDigits(text) && Decimal.Value(text) == n
    decreases width
  {
    var digits := LengthField(n, width);
    var text := seq(width, i requires 0 <= i < width => digits[i] as int as char);
    if width > 0 {
      var init := seq(width - 1, i requires 0 <= i < width - 1 => LengthField(n / 10, width - 1)[i] as int as char);
      LengthFieldValue(n / 10, width - 1);
      assert text[..width - 1] == init;
      assert Decimal.DigitValue(text[width - 1]) == n % 10;
    }
  }

  /** A label headed by the five zero-padded digits of a length below 100000
      reads back as that length: parseRecordLength inverts the label layout. */
  lemma ParseRecordLengthOfField(n: nat, rest: seq<byte>)
    requires n < 100000
    ensures ParseRecordLength(LengthField(n, LengthDigits) + rest) == Some(n)
  {
    var leaderData := LengthField(n, LengthDigits) + rest;
    var text := seq(LengthDigits, i requires 0 <= i < LengthDigits => LengthField(n, LengthDigits)[i] as int as char);
    assert Power10(LengthDigits) == 100000;
    LengthFieldValue(n, LengthDigits);
    assert LengthText(leaderData) == text;
    Decimal.ParseDigits(text);
  }

  /** The record length at the head of the input when a whole record follows,
      or why reading stops there. */
  function NextRecord(input: seq<byte>): (r: Result<nat, Stop>)
    ensures r.Success? ==> LabelLength <= r.value <= |input|
    ensures r.Success? ==> ParseRecordLength(input[..LabelLength]) == Some(r.value)
  {
    if |input| < LabelLength then Failure(EndOfInput)
    else match ParseRecordLength(input[..LabelLength])
      case None => Failure(UnparsableLength)
      case Some(n) =>
        if n < LabelLength then Failure(NegativeBodyLength(n))
        else if |input| < n then Failure(EndOfInput)
        else Success(n)
  }

  /** Reading stops silently exactly when the input ends inside the label, or
      inside a record whose label declares a valid length. */
  lemma EndOfInputIsTruncation(input: seq<byte>)
    ensures NextRecord(input) == Failure(EndOfInput) <==>
              |input| < LabelLength
              || (var n := ParseRecordLength(input[..LabelLength]); n.Some? && LabelLength <= n.value && |input| < n.value)
  {
  }

  /** The complete records at the head of the input, in order, and why reading stops. */
  datatype Split = Split(records: seq<seq<byte>>, stop: Stop)

  function SplitRecords(input: seq<byte>): Split
    decreases |input|
  {
    match NextRecord(input)
    case Failure(stop) => Split([], stop)
    case Success(n) =>
      var rest := SplitRecords(input[n..]);
      Split([input[..n]] + rest.records, rest.stop)
  }

  function Concat(chunks: seq<seq<byte>>): seq<byte>
  {
    if chunks == [] then [] else chunks[0] + Concat(chunks[1..])
  }

  /** The records are consecutive slices of the input from its start: nothing
      is skipped, reordered or altered; reading stops where the rest of the
      input no longer holds a complete record, for the stated reason. */
  lemma {:induction false} SplitRecordsTile(input: seq<byte>)
    ensures var s := SplitRecords(input);
            |Concat(s.records)| <= |input| && input[..|Concat(s.records)|] == Concat(s.records)
            && NextRecord(input[|Concat(s.records)|..]) == Failure(s.stop)
    decreases |input|
  {
    if NextRecord(input).Failure? {
      assert input[0..] == input;
    } else {
      var n := NextRecord(input).value;
      SplitRecordsTile(input[n..]);
      TileStep(input, n, SplitRecords(input[n..]));
    }
  }

  lemma TileStep(input: seq<byte>, n: nat, rest: Split)
    requires n <= |input|
    requires |Concat(rest.records)| <= |input[n..]|
    requires input[n..][..|Concat(rest.records)|] == Concat(rest.records)
    ensures var c := Concat([input[..n]] + rest.records);
            c == input[..n] + Concat(rest.records)
            && |c| <= |input| && input[..|c|] == c
            && input[|c|..] == input[n..][|Concat(rest.records)|..]
  {
    var c := Concat(rest.records);
    assert ([input[..n]] + rest.records)[1..] == rest.records;
    assert input[..n + |c|] == input[..n] + input[n..][..|c|];
    assert input[n + |c|..] == input[n..][|c|..];
  }

  /** Every record is at least a label long and its label declares its length. */
  lemma {:induction false} SplitRecordsWellFormed(input: seq<byte>)
    ensures forall r :: r in SplitRecords(input).records ==>
              |r| >= LabelLength && ParseRecordLength(r[..LabelLength]) == Some(|r|)
    decreases |input|
  {
    match NextRecord(input)
    case Failure(_) =>
    case Success(n) =>
      SplitRecordsWellFormed(input[n..]);
      assert input[..n][..LabelLength] == input[..LabelLength];
  }

  /** The body of a record decoded as ISO-8859-1: one character per byte. */
  function Latin1(bytes: seq<byte>): (text: string)
    ensures |text| == |bytes| && forall i :: 0 <= i < |bytes| ==> text[i] as int == bytes[i] as int
  {
    seq(|bytes|, i requires 0 <= i < |bytes| => bytes[i] as int as char)
  }

  /** String.contains: `needle` occurs in `text`, scanning from the left. */
  function Contains(text: string, needle: string): bool
    decreases |text|
  {
    if needle <= text then true
    else if text == [] then false
    else Contains(text[1..], needle)
  }

  /** `needle` occurs in `text` at position `i`. */
  ghost predicate OccursAt(text: string, needle: string, i: int) {
    0 <= i <= |text| - |needle| && text[i..i + |needle|] == needle
  }

  /** An occurrence past the first character is an occurrence in the rest. */
  lemma OccursAtShift(text: string, needle: string, i: int)
    requires 1 <= i && OccursAt(text, needle, i)
    ensures OccursAt(text[1..], needle, i - 1)
  {
    assert text[1..][i - 1..i - 1 + |needle|] == text[i..i + |needle|];
  }

  /** An occurrence in the rest is an occurrence one place further on. */
  lemma OccursAtUnshift(text: string, needle: string, i: int)
    requires text != [] && OccursAt(text[1..], needle, i)
    ensures OccursAt(text, needle, i + 1)
  {
    assert text[1..][i..i + |needle|] == text[i + 1..i + 1 + |needle|];
  }

  /** When contains answers true, it has found an occurrence. */
  lemma {:induction false} ContainsFindsOccurrence(text: string, needle: string) returns (i: int)
    requires Contains(text, needle)
    ensures OccursAt(text, needle, i)
    decreases |text|
  {
    if needle <= text {
      i := 0;
      assert text[0..|needle|] == needle;
    } else {
      var j := ContainsFindsOccurrence(text[1..], needle);
      OccursAtUnshift(text, needle, j);
      i := j + 1;
    }
  }

  /** An occurrence anywhere makes contains answer true. */
  lemma {:induction false} OccurrenceIsContained(text: string, needle: string, i: int)
    requires OccursAt(text, needle, i)
    ensures Contains(text, needle)
    decreases |text|
  {
    if !(needle <= text) {
      assert i != 0;
      OccursAtShift(text, needle, i);
      OccurrenceIsContained(text[1..], needle, i - 1);
    }
  }

  /** contains means: some position of `text` starts an occurrence of `needle`. */
  lemma ContainsIsOccurrence(text: string, needle: string)
    ensures Contains(text, needle) <==> exists i :: OccursAt(text, needle, i)
  {
    if Contains(text, needle) {
      var i := ContainsFindsOccurrence(text, needle);
    }
    if exists i :: OccursAt(text, needle, i) {
      var i :| OccursAt(text, needle, i);
      OccurrenceIsContained(text, needle, i);
    }
  }

  /** A record is written when its body (everything after the label) contains the search string. */
  predicate Selected(record: seq<byte>, needle: string)
    requires |record| >= LabelLength
  {
    Contains(Latin1(record[LabelLength..]), needle)
  }

  /** The records written, in input order. */
  function Keep(records: seq<seq<byte>>, needle: string): (kept: seq<seq<byte>>)
    requires forall r :: r in records ==> |r| >= LabelLength
    ensures forall r :: r in kept ==> r in records && Selected(r, needle)
    decreases |records|
  {
    if records == [] then []
    else (if Selected(records[0], needle) then [records[0]] else []) + Keep(records[1..], needle)
  }

  /** Every selected record is written; filtering consecutive runs of records
      writes the first run's records before the second's. */
  lemma {:induction false} KeepAppend(a: seq<seq<byte>>, b: seq<seq<byte>>, needle: string)
    requires forall r :: r in a ==> |r| >= LabelLength
    requires forall r :: r in b ==> |r| >= LabelLength
    ensures Keep(a + b, needle) == Keep(a, needle) + Keep(b, needle)
    decreases |a|
  {
    if a == [] {
      assert a + b == b;
    } else {
      assert (a + b)[1..] == a[1..] + b;
      KeepAppend(a[1..], b, needle);
    }
  }

  lemma {:induction false} KeepSelected(records: seq<seq<byte>>, needle: string, r: seq<byte>)
    requires forall x :: x in records ==> |x| >= LabelLength
    requires r in records && Selected(r, needle)
    ensures r in Keep(records, needle)
    decreases |records|
  {
    if records[0] != r {
      KeepSelected(records[1..], needle, r);
    }
  }

  /** What running the reader over the input writes, record by record, and how it stops. */
  function Filter(input: seq<byte>, needle: string): (out: Split)
  {
    SplitRecordsWellFormed(input);
    var s := SplitRecords(input);
    Split(Keep(s.records, needle), s.stop)
  }

  /** A written record is a complete record of the input, label and body
      unchanged, and its body contains the search string; every complete
      record whose body contains it is written. */
  lemma FilterWritesExactlyTheMatches(input: seq<byte>, needle: string, r: seq<byte>)
    ensures r in Filter(input, needle).records <==>
              r in SplitRecords(input).records && |r| >= LabelLength && Selected(r, needle)
  {
    SplitRecordsWellFormed(input);
    if r in SplitRecords(input).records && Selected(r, needle) {
      KeepSelected(SplitRecords(input).records, needle, r);
    }
  }

  /** readFully: fills the buffer from the input at `pos`, or reports that the
      input ends first (EOFException). */
  method ReadFully(input: seq<byte>, pos: nat, buf: array<byte>) returns (ok: bool, next: nat)
    requires pos <= |input|
    modifies buf
    ensures ok <==> pos + buf.Length <= |input|
    ensures ok ==> next == pos + buf.Length && buf[..] == input[pos..next]
    ensures !ok ==> next == |input|
  {
    var i := 0;
    while i < buf.Length && pos + i < |input|
      invariant 0 <= i <= buf.Length && pos + i <= |input|
      invariant buf[..i] == input[pos..pos + i]
    {
      buf[i] := input[pos + i];
      i := i + 1;
    }
    ok := i == buf.Length;
    next := pos + i;
  }

  /** One record of main's loop: reads the label into `byteArray`, parses the
      record length, allocates the body buffer (the declared length less the
      label) and reads the body into it. */
  method ReadRecord(input: seq<byte>, pos: nat, byteArray: array<byte>) returns (r: Result<nat, Stop>, recordBuf: array?<byte>)
    requires pos <= |input| && byteArray.Length == LabelLength
    modifies byteArray
    ensures r == NextRecord(input[pos..])
    ensures r.Success? ==> recordBuf != null && recordBuf != byteArray && pos + r.value <= |input|
                           && byteArray[..] + recordBuf[..] == input[pos..][..r.value]
                           && recordBuf[..] == input[pos..][..r.value][LabelLength..]
  {
    recordBuf := null;
    var ok, next := ReadFully(input, pos, byteArray);
    if !ok {
      return Failure(EndOfInput), null;
    }
    assert byteArray[..] == input[pos..][..LabelLength] by {
      assert input[pos..next] == input[pos..][..LabelLength];
    }
    var recordLength := ParseRecordLength(byteArray[..]);
    if recordLength.None? {
      return Failure(UnparsableLength), null;
    }
    if recordLength.value < LabelLength {
      return Failure(NegativeBodyLength(recordLength.value)), null;
    }
    recordBuf := new byte[recordLength.value - LabelLength];
    var ok', next' := ReadFully(input, next, recordBuf);
    if !ok' {
      return Failure(EndOfInput), recordBuf;
    }
    RecordSlices(input, pos, recordLength.value, byteArray[..], recordBuf[..]);
    r := Success(recordLength.value);
  }

  /** main: reads record after record and writes label and body when the body,
      decoded as ISO-8859-1, contains the search string; stops at the end of
      the input, at a label that does not parse, or at a declared length below
      the label's. */
  method FilterRecords(input: seq<byte>, needle: string) returns (written: seq<seq<byte>>, stop: Stop)
    ensures Split(written, stop) == Filter(input, needle)
  {
    var byteArray := new byte[LabelLength];
    var pos: nat := 0;
    ghost var done: seq<seq<byte>> := [];
    written := [];
    while true
      invariant pos <= |input| && byteArray.Length == LabelLength
      invariant forall r :: r in done ==> |r| >= LabelLength
      invariant SplitRecords(input) == After(done, SplitRecords(input[pos..]))
      invariant written == Keep(done, needle)
      decreases |input| - pos
    {
      var r, recordBuf := ReadRecord(input, pos, byteArray);
      if r.Failure? {
        stop := r.error;
        FinalStop(input, pos, done, needle);
        return;
      }
      ghost var record := byteArray[..] + recordBuf[..];
      var recordStr := Latin1(recordBuf[..]);
      if Contains(recordStr, needle) {
        written := written + [byteArray[..] + recordBuf[..]];
      }
      ghost var (pos0, done0, written0) := (pos, done, written);
      done := done + [record];
      pos := pos + r.value;
      SplitStep(input, pos0, r.value, pos, done0, record, done);
      KeepOne(done0, record, done, needle);
    }
  }

  /** The records read so far, followed by what is still to read. */
  function After(done: seq<seq<byte>>, rest: Split): Split {
    Split(done + rest.records, rest.stop)
  }

  /** The label and the body read one after the other make up the record at `pos`,
      and a whole record is there to read. */
  lemma RecordSlices(input: seq<byte>, pos: nat, n: nat, leaderData: seq<byte>, body: seq<byte>)
    requires LabelLength <= n && pos + n <= |input|
    requires leaderData == input[pos..][..LabelLength] && ParseRecordLength(leaderData) == Some(n)
    requires body == input[pos + LabelLength..pos + n]
    ensures leaderData + body == input[pos..][..n]
    ensures NextRecord(input[pos..]) == Success(n)
  {
  }

  /** One turn of the copy loop: the record at `pos` moves from the records
      still to read to the records read. */
  lemma SplitStep(input: seq<byte>, pos: nat, n: nat, next: nat, done: seq<seq<byte>>, record: seq<byte>, done': seq<seq<byte>>)
    requires pos <= |input| && NextRecord(input[pos..]) == Success(n)
    requires record == input[pos..][..n] && next == pos + n && done' == done + [record]
    ensures next <= |input|
    ensures After(done, SplitRecords(input[pos..])) == After(done', SplitRecords(input[next..]))
  {
    var tail := SplitRecords(input[next..]);
    assert SplitRecords(input[pos..]) == Split([record] + tail.records, tail.stop) by {
      SplitUnfold(input[pos..], n);
      assert input[pos..][n..] == input[next..];
    }
    assert done + ([record] + tail.records) == done' + tail.records;
  }

  lemma SplitUnfold(input: seq<byte>, n: nat)
    requires NextRecord(input) == Success(n)
    ensures SplitRecords(input) == Split([input[..n]] + SplitRecords(input[n..]).records, SplitRecords(input[n..]).stop)
  {
  }

  lemma KeepOne(done: seq<seq<byte>>, record: seq<byte>, done': seq<seq<byte>>, needle: string)
    requires forall r :: r in done ==> |r| >= LabelLength
    requires |record| >= LabelLength && done' == done + [record]
    ensures forall r :: r in done' ==> |r| >= LabelLength
    ensures Keep(done', needle) == Keep(done, needle) + (if Selected(record, needle) then [record] else [])
  {
    KeepAppend(done, [record], needle);
    assert [record][1..] == [];
  }

  lemma FinalStop(input: seq<byte>, pos: nat, done: seq<seq<byte>>, needle: string)
    requires pos <= |input| && NextRecord(input[pos..]).Failure?
    requires forall r :: r in done ==> |r| >= LabelLength
    requires SplitRecords(input) == After(done, SplitRecords(input[pos..]))
    ensures Filter(input, needle) == Split(Keep(done, needle), NextRecord(input[pos..]).error)
  {
    assert done + [] == done;
  }

}
