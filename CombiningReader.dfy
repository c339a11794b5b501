/**
 * The combining reader: a two-slot lookahead over a lower-level reader that
 * folds each run of consecutive physical records sharing an identity string
 * into the first record of the run.
 */
module CombiningReader {
  import opened Wrappers
  import opened Marc

  /** A regular expression over field tags, taken as an uninterpreted predicate. */
  type TagPattern = string -> bool

  // ---------------------------------------------------------------------
  // Identity of a record
  // ---------------------------------------------------------------------

  /** A control-field selector as the lookup can use it: a 3-character tag,
      or a tag, one separator character and a subfield code at index 4. */
  predicate WellFormedSelector(sel: string) {
    |sel| == 3 || |sel| >= 5
  }

  predicate ValidSelector(sel: Option<string>) {
    sel.None? || WellFormedSelector(sel.value)
  }

  /** The subfield code a selector names; `a` when it names only a tag. */
  function SelectorCode(sel: string): char
    requires WellFormedSelector(sel)
  {
    if |sel| > 3 then sel[4] else 'a'
  }

  /** What one field contributes to the lookup for `tag` and `code`: a control
      field's data, a data field's first `code` subfield, or nothing. */
  function FieldYield(f: Field, tag: string, code: char): Option<string> {
    if f.tag != tag then None
    else match f
      case ControlField(_, data) => Some(data)
      case DataField(_, _, _, subfields) =>
        match GetSubfield(subfields, code)
        case Some(sf) => Some(sf.data)
        case None => None
  }

  /** The value of the first field in `fields` that yields one for `tag` and `code`. */
  function FirstYield(fields: seq<Field>, tag: string, code: char): (r: Option<string>)

  {
    if fields == [] then None
    else if FieldYield(fields[0], tag, code).Some? then FieldYield(fields[0], tag, code)
    else
      var r := FirstYield(fields[1..], tag, code);
      assert forall f :: f in fields[1..] ==> f in fields;
      r
  }

  /** findControlField: the first field tagged with the selector's first three
      characters that has a value for it; data fields lacking the subfield are skipped. */
  function FindControlField(rec: RecordValue, sel: string): Option<string>
    requires WellFormedSelector(sel)
  {
    FirstYield(rec.fields, sel[..3], SelectorCode(sel))
  }

  /** The lookup finds nothing exactly when no field yields a value, and otherwise
      the value of the earliest field that does. */
  lemma {:induction false} FindControlFieldIsFirst(rec: RecordValue, sel: string)
    requires WellFormedSelector(sel)
    ensures var tag, code, r := sel[..3], SelectorCode(sel), FindControlField(rec, sel);
      && (r.None? <==> forall i :: 0 <= i < |rec.fields| ==> FieldYield(rec.fields[i], tag, code).None?)
      && (r.Some? ==> exists i :: 0 <= i < |rec.fields| && rec.fields[i].tag == tag
                                  && FieldYield(rec.fields[i], tag, code) == r
                                  && forall j :: 0 <= j < i ==> FieldYield(rec.fields[j], tag, code).None?)
  {
    FirstYieldIsFirst(rec.fields, sel[..3], SelectorCode(sel));
  }

  lemma {:induction false} FirstYieldIsFirst(fields: seq<Field>, tag: string, code: char)
    ensures var r := FirstYield(fields, tag, code);
      && (r.None? <==> forall i :: 0 <= i < |fields| ==> FieldYield(fields[i], tag, code).None?)
      && (r.Some? ==> exists i :: 0 <= i < |fields| && fields[i].tag == tag && FieldYield(fields[i], tag, code) == r
                                  && forall j :: 0 <= j < i ==> FieldYield(fields[j], tag, code).None?)
  {
    if fields != [] && FieldYield(fields[0], tag, code).None? {
      FirstYieldIsFirst(fields[1..], tag, code);
      assert forall i :: 1 <= i < |fields| ==> fields[i] == fields[1..][i - 1];
      var r := FirstYield(fields, tag, code);
      if r.Some? {
        var k :| 0 <= k < |fields[1..]| && fields[1..][k].tag == tag && FieldYield(fields[1..][k], tag, code) == r
                 && forall j :: 0 <= j < k ==> FieldYield(fields[1..][j], tag, code).None?;
        assert FieldYield(fields[k + 1], tag, code) == r;
      }
    }
  }

  /** A data field lacking the selected subfield yields nothing, so the lookup skips it. */
  lemma DataFieldWithoutSubfieldYieldsNothing(f: Field, tag: string, code: char)
    requires f.DataField? && forall i :: 0 <= i < |f.subfields| ==> f.subfields[i].code != code
    ensures FieldYield(f, tag, code) == None
  {
    GetSubfieldIsFirst(f.subfields, code);
  }

  /** The identity string of a record: its control number without a selector,
      the selected field's value with one. */
  function Identity(rec: RecordValue, sel: Option<string>): Option<string>
    requires ValidSelector(sel)
  {
    if sel.None? then rec.controlNumber else FindControlField(rec, sel.value)
  }

  /** recordsMatch: both records present, both identities present and equal;
      two absent identities never match. */
  function RecordsMatch(left: Option<RecordValue>, right: Option<RecordValue>,
                        leftSel: Option<string>, rightSel: Option<string>): (b: bool)
    requires ValidSelector(leftSel) && ValidSelector(rightSel)
    ensures b <==> left.Some? && right.Some? && Identity(left.value, leftSel).Some?
                   && Identity(left.value, leftSel) == Identity(right.value, rightSel)
  {
    match (left, right)
    case (Some(l), Some(r)) =>
      var ls, rs := Identity(l, leftSel), Identity(r, rightSel);
      ls.Some? && rs.Some? && ls.value == rs.value
    case _ => false
  }

  // ---------------------------------------------------------------------
  // Merging a continuation record into the current one
  // ---------------------------------------------------------------------

  /** The fields of `fields` whose tag the pattern accepts, in their order. */
  function Matching(fields: seq<Field>, p: TagPattern): (r: seq<Field>)
  {
    if fields == [] then []
    else Matching(fields[..|fields| - 1], p) + (if p(fields[|fields| - 1].tag) then [fields[|fields| - 1]] else [])
  }

  /** The fields of `fields` whose tag the pattern rejects, in their order. */
  function NotMatching(fields: seq<Field>, p: TagPattern): seq<Field>
  {
    if fields == [] then []
    else NotMatching(fields[..|fields| - 1], p) + (if p(fields[|fields| - 1].tag) then [] else [fields[|fields| - 1]])
  }

  /** Extending a prefix by one field extends exactly one of the two filterings by it. */
  lemma MatchingSnoc(s: seq<Field>, i: nat, p: TagPattern)
    requires i < |s|
    ensures Matching(s[..i + 1], p) == Matching(s[..i], p) + (if p(s[i].tag) then [s[i]] else [])
    ensures NotMatching(s[..i + 1], p) == NotMatching(s[..i], p) + (if p(s[i].tag) then [] else [s[i]])
  {
    assert s[..i + 1][..i] == s[..i];
  }

  /** Moving the next field of `s` from the unvisited part to the kept part
      leaves their concatenation unchanged. */
  lemma KeepStep(kept: seq<Field>, s: seq<Field>, i: nat)
    requires i < |s|
    ensures kept + s[i..] == (kept + [s[i]]) + s[i + 1..]
  {
    assert s[i..] == [s[i]] + s[i + 1..];
  }

  /** Filtering distributes over concatenation: order is kept across parts. */
  lemma {:induction false} MatchingAppend(a: seq<Field>, b: seq<Field>, p: TagPattern)
    ensures Matching(a + b, p) == Matching(a, p) + Matching(b, p)
    decreases |b|
  {
    if b == [] {
      assert a + b == a;
    } else {
      var b' := b[..|b| - 1];
      assert (a + b)[..|a + b| - 1] == a + b';
      assert (a + b)[|a + b| - 1] == b[|b| - 1];
      MatchingAppend(a, b', p);
    }
  }

  /** A field is kept by the filter exactly when it occurs and its tag is accepted. */
  lemma {:induction false} MatchingMembers(fields: seq<Field>, p: TagPattern, f: Field)
    ensures f in Matching(fields, p) <==> f in fields && p(f.tag)
    decreases |fields|
  {
    if fields != [] {
      var init := fields[..|fields| - 1];
      assert fields == init + [fields[|fields| - 1]];
      MatchingMembers(init, p, f);
    }
  }

  /** Splitting by a pattern loses and invents no field: the two parts together
      are a permutation of the whole. */
  lemma {:induction false} SplitIsPermutation(fields: seq<Field>, p: TagPattern)
    ensures multiset(NotMatching(fields, p)) + multiset(Matching(fields, p)) == multiset(fields)
    decreases |fields|
  {
    if fields != [] {
      var init := fields[..|fields| - 1];
      assert fields == init + [fields[|fields| - 1]];
      SplitIsPermutation(init, p);
    }
  }

  /** The value combineRecords(current, next, idsToMerge) leaves in current:
      current's fields, then next's fields whose tag matches, then the errors of both. */
  function Merged(cur: RecordValue, next: RecordValue, idsToMerge: TagPattern): RecordValue
  {
    RecordValue(cur.controlNumber, cur.fields + Matching(next.fields, idsToMerge), cur.errors + next.errors)
  }

  /** The value the anchored combineRecords leaves in current: current's
      non-anchor fields, the merged fields, then current's anchor fields. */
  function MergedBefore(cur: RecordValue, next: RecordValue, idsToMerge: TagPattern,
                        insertBefore: TagPattern): RecordValue
  {
    RecordValue(cur.controlNumber,
                NotMatching(cur.fields, insertBefore) + Matching(next.fields, idsToMerge) + Matching(cur.fields, insertBefore),
                cur.errors + next.errors)
  }

  /** Merging keeps the identity and every existing field and error in place,
      and adds exactly next's matching fields, in next's order. */
  lemma MergedExtends(cur: RecordValue, next: RecordValue, idsToMerge: TagPattern)
    ensures var m := Merged(cur, next, idsToMerge);
      && m.controlNumber == cur.controlNumber
      && m.fields[..|cur.fields|] == cur.fields
      && m.errors == cur.errors + next.errors
      && (forall f :: f in m.fields[|cur.fields|..] <==> f in next.fields && idsToMerge(f.tag))
  {
    var m := Merged(cur, next, idsToMerge);
    assert m.fields[|cur.fields|..] == Matching(next.fields, idsToMerge);
    forall f ensures f in m.fields[|cur.fields|..] <==> f in next.fields && idsToMerge(f.tag) {
      MatchingMembers(next.fields, idsToMerge, f);
    }
  }

  /** The anchored merge only moves current's fields: together with the merged
      fields they are a permutation of current's fields plus next's matching ones. */
  lemma MergedBeforeIsPermutation(cur: RecordValue, next: RecordValue, idsToMerge: TagPattern,
                                  insertBefore: TagPattern)
    ensures multiset(MergedBefore(cur, next, idsToMerge, insertBefore).fields)
            == multiset(cur.fields) + multiset(Matching(next.fields, idsToMerge))
  {
    SplitIsPermutation(cur.fields, insertBefore);
  }

  // ---------------------------------------------------------------------
  // The logical record stream
  // ---------------------------------------------------------------------

  /** The reader's configuration: which fields are merged, and the two selectors. */
  datatype MergeConfig = MergeConfig(idsToMerge: TagPattern, leftControlField: Option<string>,
                                     rightControlField: Option<string>)
  {
    predicate Valid() {
      ValidSelector(leftControlField) && ValidSelector(rightControlField)
    }
  }

  /** Whether the lookahead `next` continues the accumulated record `cur`. */
  function Continues(cfg: MergeConfig, cur: RecordValue, next: RecordValue): bool
    requires cfg.Valid()
  {
    RecordsMatch(Some(cur), Some(next), cfg.leftControlField, cfg.rightControlField)
  }

  /** Why the reader stops with a MarcException: a failed pull after a record
      (with its control number, when it has one) or before any record. */
  datatype ReadFailure =
    | CouldNotGetNextAfter(controlNumber: Option<string>, cause: string)
    | CouldNotRead(cause: string)

  /** The outcome of accumulating one run: the merged record and the pulls from
      the first non-matching lookahead on, or the failure that stopped it. */
  datatype Run = Complete(merged: RecordValue, rest: seq<Pull>) | Failed(failure: ReadFailure)

  /** Folds the following pulls into `cur` while they continue it. A run ends at
      the first non-matching record, which stays unconsumed, or at the end of input. */
  function MergeRun(cfg: MergeConfig, cur: RecordValue, rest: seq<Pull>): (r: Run)
    requires cfg.Valid()
    ensures r.Complete? ==> |r.rest| <= |rest| && r.rest == rest[|rest| - |r.rest|..]
    ensures r.Complete? && r.rest != [] ==> r.rest[0].Got? && !Continues(cfg, r.merged, r.rest[0].value)
    decreases |rest|
  {
    if rest == [] then Complete(cur, [])
    else match rest[0]
      case Broken(cause) => Failed(CouldNotGetNextAfter(cur.controlNumber, cause))
      case Got(next) =>
        if Continues(cfg, cur, next) then
          MergeRun(cfg, Merged(cur, next, cfg.idsToMerge), rest[1..])
        else Complete(cur, rest)
  }

  /** A merged record stands in place of the first record of its run: same
      identity, and the first record's fields and errors come first, unchanged. */
  lemma {:induction false} MergeRunKeepsFirst(cfg: MergeConfig, cur: RecordValue, rest: seq<Pull>)
    requires cfg.Valid()
    ensures var r := MergeRun(cfg, cur, rest);
      r.Complete? ==> r.merged.controlNumber == cur.controlNumber
                      && cur.fields <= r.merged.fields && cur.errors <= r.merged.errors
    decreases |rest|
  {
    if rest != [] && rest[0].Got? && Continues(cfg, cur, rest[0].value) {
      var m := Merged(cur, rest[0].value, cfg.idsToMerge);
      var r := MergeRun(cfg, m, rest[1..]);
      assert MergeRun(cfg, cur, rest) == r;
      MergeRunKeepsFirst(cfg, m, rest[1..]);
      if r.Complete? {
        PrefixTransitive(cur.fields, m.fields, r.merged.fields);
        PrefixTransitive(cur.errors, m.errors, r.merged.errors);
      }
    } else {
      assert MergeRun(cfg, cur, rest).Complete? ==> MergeRun(cfg, cur, rest).merged == cur;
    }
  }

  lemma PrefixTransitive<T>(a: seq<T>, b: seq<T>, c: seq<T>)
    requires a <= b && b <= c
    ensures a <= c
  {
    assert a == b[..|a|] && b == c[..|b|];
  }

  /** The logical records a stream of pulls yields, and the failure that ends it, if any. */
  datatype Stream = Stream(records: seq<RecordValue>, failure: Option<ReadFailure>)

  function Prepend(rec: RecordValue, s: Stream): Stream {
    Stream([rec] + s.records, s.failure)
  }

  /** The logical stream: each run of continuing records becomes its merged first record. */
  function Assemble(cfg: MergeConfig, pulls: seq<Pull>): Stream
    requires cfg.Valid()
    decreases |pulls|
  {
    if pulls == [] then Stream([], None)
    else match pulls[0]
      case Broken(cause) => Stream([], Some(CouldNotRead(cause)))
      case Got(first) =>
        match MergeRun(cfg, first, pulls[1..])
        case Failed(e) => Stream([], Some(e))
        case Complete(m, rest) => Prepend(m, Assemble(cfg, rest))
  }

  /** The physical records, when they all decode. */
  predicate AllDecoded(pulls: seq<Pull>) {
    forall i :: 0 <= i < |pulls| ==> pulls[i].Got?
  }

  function Values(pulls: seq<Pull>): (vs: seq<RecordValue>)
    requires AllDecoded(pulls)
  {
    if pulls == [] then [] else [pulls[0].value] + Values(pulls[1..])
  }

  /** When no record continues its predecessor, every record passes through
      unchanged and in order. */
  lemma {:induction false} AssembleWithoutContinuations(cfg: MergeConfig, pulls: seq<Pull>)
    requires cfg.Valid() && AllDecoded(pulls)
    requires forall i :: 0 < i < |pulls| ==> !Continues(cfg, pulls[i - 1].value, pulls[i].value)
    ensures Assemble(cfg, pulls) == Stream(Values(pulls), None)
    decreases |pulls|
  {
    if pulls != [] {
      var tail := pulls[1..];
      if tail != [] {
        assert !Continues(cfg, pulls[0].value, pulls[1].value);
        assert tail[0] == pulls[1];
      }
      assert MergeRun(cfg, pulls[0].value, tail) == Complete(pulls[0].value, tail);
      forall i | 0 < i < |tail|
        ensures !Continues(cfg, tail[i - 1].value, tail[i].value)
      {
        assert tail[i - 1] == pulls[i] && tail[i] == pulls[i + 1];
      }
      AssembleWithoutContinuations(cfg, tail);
    }
  }

  /** A record followed by its continuation comes out as one record: the first
      record's fields followed by the continuation's merged fields, with the errors of both. */
  lemma AssembleMergesContinuation(cfg: MergeConfig, a: RecordValue, b: RecordValue)
    requires cfg.Valid() && Continues(cfg, a, b)
    ensures Assemble(cfg, [Got(a), Got(b)]) == Stream([Merged(a, b, cfg.idsToMerge)], None)
  {
    var m := Merged(a, b, cfg.idsToMerge);
    assert [Got(a), Got(b)][1..] == [Got(b)];
    assert [Got(b)][1..] == [];
    assert MergeRun(cfg, m, []) == Complete(m, []);
    assert MergeRun(cfg, a, [Got(b)]) == Complete(m, []);
    assert Assemble(cfg, []) == Stream([], None);
    assert Assemble(cfg, [Got(a), Got(b)]) == Prepend(m, Assemble(cfg, []));
  }

  /** No record is invented: the logical stream is never longer than the physical one. */
  lemma {:induction false} AssembleNeverLonger(cfg: MergeConfig, pulls: seq<Pull>)
    requires cfg.Valid()
    ensures |Assemble(cfg, pulls).records| <= |pulls|
    decreases |pulls|
  {
    if pulls != [] && pulls[0].Got? {
      match MergeRun(cfg, pulls[0].value, pulls[1..])
      case Failed(_) =>
      case Complete(_, rest) => AssembleNeverLonger(cfg, rest);
    }
  }

  // ---------------------------------------------------------------------
  // The reader
  // ---------------------------------------------------------------------

  class MarcCombiningReader {
    var currentRecord: Record?
    var nextRecord: Record?
    const reader: RecordSource
    const idsToMerge: TagPattern
    const leftControlField: Option<string>
    const rightControlField: Option<string>

    function Config(): MergeConfig {
      MergeConfig(idsToMerge, leftControlField, rightControlField)
    }

    /** A buffered current record is complete: its lookahead does not continue it,
        and without a lookahead the lower reader is exhausted. */
    ghost predicate Completed(c: Record)
      reads this`nextRecord, reader, nextRecord, c
      requires Config().Valid()
    {
      && (nextRecord == null ==> !reader.HasNext())
      && (nextRecord != null ==> !Continues(Config(), c.Value(), nextRecord.Value()))
    }

    ghost predicate Valid()
      reads this, reader, currentRecord, nextRecord
    {
      && reader.Valid()
      && Config().Valid()
      && (currentRecord != null && nextRecord != null ==> currentRecord != nextRecord)
      && (currentRecord != null ==> Completed(currentRecord))
    }

    /** The pulls still to be folded: the buffered lookahead, then the lower reader's rest. */
    ghost function Lookahead(): seq<Pull>
      reads this`nextRecord, reader, nextRecord
      requires reader.Valid()
    {
      (if nextRecord != null then [Got(nextRecord.Value())] else []) + reader.Pending()
    }

    /** What the reader has yet to deliver. */
    ghost function Rest(): Stream
      reads this, reader, currentRecord, nextRecord
      requires Valid()
    {
      if currentRecord != null then Prepend(currentRecord.Value(), Assemble(Config(), Lookahead()))
      else Assemble(Config(), Lookahead())
    }

    constructor (reader: RecordSource, idsToMerge: TagPattern, leftControlField: Option<string>,
                 rightControlField: Option<string>)
      requires reader.Valid() && ValidSelector(leftControlField) && ValidSelector(rightControlField)
      ensures Valid() && this.reader == reader && currentRecord == null && nextRecord == null
      ensures Rest() == Assemble(MergeConfig(idsToMerge, leftControlField, rightControlField), reader.Pending())
    {
      this.reader := reader;
      this.idsToMerge := idsToMerge;
      this.leftControlField := leftControlField;
      this.rightControlField := rightControlField;
      currentRecord := null;
      nextRecord := null;
      new;
      assert Lookahead() == reader.Pending();
    }

    /** recordsMatch on the two buffered objects. */
    function RecordsMatchRefs(left: Record?, right: Record?): (b: bool)
      reads left, right
      requires Config().Valid()
      ensures b ==> left != null && right != null && Continues(Config(), left.Value(), right.Value())
      ensures left != null && right != null && Continues(Config(), left.Value(), right.Value()) ==> b
    {
      RecordsMatch(if left == null then None else Some(left.Value()),
                   if right == null then None else Some(right.Value()),
                   leftControlField, rightControlField)
    }

    /** hasNext: buffers the next logical record if none is buffered, and reports
        whether one exists. Repeated calls neither pull nor change the answer. */
    method HasNext() returns (r: Result<bool, ReadFailure>)
      requires Valid()
      modifies this, reader, nextRecord
      ensures var s := old(Rest());
        if s.records != [] then r == Success(true) && Valid() && Rest() == s && currentRecord != null
        else if s.failure.None? then r == Success(false) && Valid() && Rest() == s
        else r == Failure(s.failure.value)
      ensures old(currentRecord) != null ==> currentRecord == old(currentRecord) && nextRecord == old(nextRecord)
                                             && reader.pos == old(reader.pos)
    {
      if currentRecord == null {
        ghost var s := Rest();
        var n := Next();
        if n.Failure? {
          assert s.records == [] && s.failure == Some(n.error);
          return Failure(n.error);
        }
        if n.value == null {
          assert s.records == [] && s.failure.None?;
          return Success(false);
        }
        assert s.records != [];
        Buffer(n.value);
        assert [s.records[0]] + s.records[1..] == s.records;
      }
      return Success(true);
    }

    /** The assignment of hasNext that buffers a complete record handed out by next. */
    method Buffer(rec: Record)
      requires Valid() && currentRecord == null && rec != nextRecord && Completed(rec)
      modifies this
      ensures currentRecord == rec && nextRecord == old(nextRecord)
      ensures Valid() && Rest() == Prepend(rec.Value(), old(Rest()))
    {
      currentRecord := rec;
    }

    /** next: hands out the buffered record, or assembles the next logical record
        by folding every continuing lookahead into it. */
    method Next() returns (r: Result<Record?, ReadFailure>)
      requires Valid()
      modifies this, reader, nextRecord
      decreases if currentRecord != null then 0 else if nextRecord != null then 1 else 2
      ensures old(currentRecord) != null ==> r == Success(old(currentRecord))
      ensures var s := old(Rest());
        if s.records != [] then
          && r.Success? && r.value != null && r.value.Value() == s.records[0]
          && Valid() && currentRecord == null && Rest() == Stream(s.records[1..], s.failure)
          && r.value != nextRecord && Completed(r.value)
        else if s.failure.None? then r == Success(null) && Valid() && Rest() == s
        else r == Failure(s.failure.value)
    {
      if currentRecord != null {
        var tmp := currentRecord;
        currentRecord := null;
        return Success(tmp);
      }
      ghost var s0 := Rest();
      ghost var la := Lookahead();
      assert s0 == Assemble(Config(), la);
      if nextRecord != null {
        currentRecord := nextRecord;
        nextRecord := null;
      }
      ghost var pending := reader.Pending();
      assert la == (if currentRecord != null then [Got(currentRecord.Value())] else []) + pending;
      if !reader.HasNext() {
        assert pending == [] && Lookahead() == [];
        if currentRecord != null {
          assert la == [Got(currentRecord.Value())] && la[1..] == [];
          assert MergeRun(Config(), currentRecord.Value(), []) == Complete(currentRecord.Value(), []);
          assert Rest() == s0;
          r := Next();
        } else {
          assert la == [];
          r := Success(null);
        }
        return;
      }
      assert la == (if currentRecord != null then [Got(currentRecord.Value())] + pending else pending);
      var failure := PullAndMerge();
      if failure.Some? {
        return Failure(failure.value);
      }
      r := Next();
    }

    /** The part of next after the buffers are shifted: pulls a lookahead and
        folds every continuing record into the current one. On success the reader
        still has to deliver exactly what the buffered record and the pulls did. */
    method PullAndMerge() returns (failure: Option<ReadFailure>)
      requires reader.Valid() && Config().Valid() && nextRecord == null && reader.HasNext()
      modifies this, reader, currentRecord
      ensures currentRecord == old(currentRecord) && reader.Valid()
      ensures nextRecord != null ==> fresh(nextRecord)
      ensures var s := Assemble(Config(), old(if currentRecord != null then [Got(currentRecord.Value())] + reader.Pending()
                                              else reader.Pending()));
        match failure
        case Some(e) => s == Stream([], Some(e))
        case None => Valid() && Rest() == s && (currentRecord == null ==> nextRecord != null)
    {
      ghost var pending := reader.Pending();
      ghost var la := if currentRecord != null then [Got(currentRecord.Value())] + pending else pending;
      ghost var s0 := Assemble(Config(), la);
      ghost var run0 := if currentRecord != null then MergeRun(Config(), currentRecord.Value(), pending)
                        else Failed(CouldNotRead(""));
      if currentRecord != null {
        assert la[1..] == pending;
        assert s0 == match run0
                     case Failed(e) => Stream([], Some(e))
                     case Complete(m, rest) => Prepend(m, Assemble(Config(), rest));
      }
      ghost var pos0 := reader.pos;
      assert pending[0] == reader.items[pos0];
      var pulled := reader.Next();
      if pulled.Failure? {
        assert pending[0] == Broken(pulled.error);
        if currentRecord != null {
          assert run0 == Failed(CouldNotGetNextAfter(currentRecord.controlNumber, pulled.error));
          return Some(CouldNotGetNextAfter(currentRecord.controlNumber, pulled.error));
        } else {
          return Some(CouldNotRead(pulled.error));
        }
      }
      nextRecord := pulled.value;
      assert pending == [Got(nextRecord.Value())] + reader.Pending();
      assert Lookahead() == pending;
      if currentRecord == null {
        return None;
      }
      assert run0 == MergeRun(Config(), currentRecord.Value(), Lookahead());
      failure := MergeContinuations();
      if failure.Some? {
        assert run0 == Failed(failure.value);
        return;
      }
      assert run0 == Complete(currentRecord.Value(), Lookahead());
    }

    /** The loop of next that folds every continuing lookahead into the current
        record, pulling a new lookahead after each merge. */
    method MergeContinuations() returns (failure: Option<ReadFailure>)
      requires reader.Valid() && Config().Valid()
      requires currentRecord != null && nextRecord != null && currentRecord != nextRecord
      modifies this, reader, currentRecord
      ensures currentRecord == old(currentRecord) && reader.Valid()
      ensures nextRecord != null ==> nextRecord == old(nextRecord) || fresh(nextRecord)
      ensures var run := MergeRun(Config(), old(currentRecord.Value()), old(Lookahead()));
        match failure
        case Some(e) => run == Failed(e)
        case None => && run == Complete(currentRecord.Value(), Lookahead())
                     && nextRecord != currentRecord && Completed(currentRecord)
    {
      ghost var run0 := MergeRun(Config(), currentRecord.Value(), Lookahead());
      while RecordsMatchRefs(currentRecord, nextRecord)
        invariant reader.Valid() && currentRecord == old(currentRecord) && nextRecord != currentRecord
        invariant nextRecord != null ==> nextRecord == old(nextRecord) || fresh(nextRecord)
        invariant nextRecord == null ==> !reader.HasNext()
        invariant MergeRun(Config(), currentRecord.Value(), Lookahead()) == run0
        decreases |reader.items| - reader.pos, if nextRecord != null then 1 else 0
      {
        ghost var l := Lookahead();
        assert l[1..] == reader.Pending();
        currentRecord := CombineRecords(currentRecord, nextRecord, idsToMerge);
        ghost var p := reader.Pending();
        assert MergeRun(Config(), currentRecord.Value(), p) == run0;
        var error := PullNext();
        if error.Some? {
          return Some(CouldNotGetNextAfter(currentRecord.controlNumber, error.value));
        }
      }
      assert MergeRun(Config(), currentRecord.Value(), Lookahead()) == Complete(currentRecord.Value(), Lookahead());
      return None;
    }

    /** Appends to `current`, in order, the fields of `fields` whose tag matches `p`. */
    static method AppendMatching(current: Record, fields: seq<Field>, p: TagPattern)
      modifies current
      ensures current.fields == old(current.fields) + Matching(fields, p)
      ensures current.errors == old(current.errors)
    {
      var i := 0;
      while i < |fields|
        invariant 0 <= i <= |fields|
        invariant current.fields == old(current.fields) + Matching(fields[..i], p)
        invariant current.errors == old(current.errors)
      {
        assert fields[..i + 1][..i] == fields[..i];
        if p(fields[i].tag) {
          current.fields := current.fields + [fields[i]];
        }
        i := i + 1;
      }
      assert fields[..i] == fields;
    }

    /** combineRecords: appends to `current`, in place, the fields of `next` whose
        tag matches `idsToMerge`, then next's decode errors. */
    static method CombineRecords(current: Record, next: Record, idsToMerge: TagPattern) returns (r: Record)
      modifies current
      ensures r == current
      ensures current.Value() == Merged(old(current.Value()), old(next.Value()), idsToMerge)
    {
      AppendMatching(current, next.fields, idsToMerge);
      if next.HasErrors() {
        current.errors := current.errors + next.errors;
      }
      r := current;
    }

    /** The pull that follows a merge: the next lookahead, none at the end of
        input, or the failure of the lower reader. */
    method PullNext() returns (error: Option<string>)
      requires reader.Valid()
      modifies this, reader
      ensures currentRecord == old(currentRecord) && reader.Valid()
      ensures error.None? && nextRecord != null ==> fresh(nextRecord)
      ensures error.Some? ==> nextRecord == old(nextRecord)
      ensures match error
        case Some(e) => old(reader.Pending()) != [] && old(reader.Pending())[0] == Broken(e)
        case None => Lookahead() == old(reader.Pending()) && (nextRecord == null ==> !reader.HasNext())
    {
      if reader.HasNext() {
        ghost var p := reader.Pending();
        var next := reader.Next();
        if next.Failure? {
          return Some(next.error);
        }
        nextRecord := next.value;
        assert Lookahead() == p;
      } else {
        nextRecord := null;
      }
      return None;
    }

    /** Takes the fields of `current` whose tag matches `p` out, in place, and
        returns them in their order. */
    static method RemoveMatching(current: Record, p: TagPattern) returns (removed: seq<Field>)
      modifies current
      ensures current.fields == NotMatching(old(current.fields), p)
      ensures removed == Matching(old(current.fields), p)
      ensures current.errors == old(current.errors)
    {
      var existing := current.fields;
      var kept: seq<Field> := [];
      removed := [];
      var i := 0;
      while i < |existing|
        invariant 0 <= i <= |existing|
        invariant kept == NotMatching(existing[..i], p)
        invariant removed == Matching(existing[..i], p)
        invariant current.fields == kept + existing[i..]
        invariant current.errors == old(current.errors)
      {
        MatchingSnoc(existing, i, p);
        if p(existing[i].tag) {
          removed := removed + [existing[i]];
          current.fields := kept + existing[i + 1..];
        } else {
          KeepStep(kept, existing, i);
          kept := kept + [existing[i]];
        }
        i := i + 1;
      }
      assert existing[..i] == existing;
    }

    /** The anchored combineRecords: takes current's fields matching `insertBefore`
        out, appends next's matching fields, then puts the anchors back after them. */
    static method CombineRecordsBefore(current: Record, next: Record, idsToMerge: TagPattern,
                                       insertBefore: TagPattern) returns (r: Record)
      modifies current
      ensures r == current
      ensures current != next ==>
                current.Value() == MergedBefore(old(current.Value()), old(next.Value()), idsToMerge, insertBefore)
      ensures current == next ==>
                current.Value() == MergedBefore(old(current.Value()),
                                                old(current.Value()).(fields := NotMatching(old(current.fields), insertBefore)),
                                                idsToMerge, insertBefore)
    {
      ghost var nextBefore := next.Value();
      var toMove := RemoveMatching(current, insertBefore);
      assert current != next ==> next.Value() == nextBefore;
      AppendMatching(current, next.fields, idsToMerge);
      var i := 0;
      ghost var merged := current.fields;
      while i < |toMove|
        invariant 0 <= i <= |toMove|
        invariant current.fields == merged + toMove[..i]
        invariant current.errors == old(current.errors)
        invariant current != next ==> next.Value() == nextBefore
      {
        current.fields := current.fields + [toMove[i]];
        i := i + 1;
      }
      assert toMove[..i] == toMove;
      if next.HasErrors() {
        current.errors := current.errors + next.errors;
      }
      r := current;
    }
  }
}
