// MarcMultiplexReader: reads a sequence of MARC readers one after another, as
// if they were one reader, switching to the next reader whenever the current
// one is exhausted.
module MultiplexReader {
  import opened Wrappers
  import opened Marc
  import Decimal

  /** The pulls the readers `rs` still hold, reader after reader. */
  ghost function Pendings(rs: seq<RecordSource>): seq<Pull>
    reads rs
    requires forall k :: 0 <= k < |rs| ==> rs[k].Valid()
    decreases |rs|
  {
    if rs == [] then [] else rs[0].Pending() + Pendings(rs[1..])
  }

  /** The name logged when switching to reader number `k` (0-based): its entry in
      the list of names while there is one, else the count of readers switched so far. */
  function ReaderName(names: seq<string>, k: nat): string
  {
    if k < |names| then names[k] else Decimal.Show(k)
  }

  /** The names logged by switching to the first `n` readers, in order. */
  function SwitchNames(names: seq<string>, n: nat): (log: seq<string>)
    ensures |log| == n
  {
    if n == 0 then [] else SwitchNames(names, n - 1) + [ReaderName(names, n - 1)]
  }

  /** Entry `k` of the switch log is reader k's name. */
  lemma {:induction false} SwitchNamesAt(names: seq<string>, n: nat, k: nat)
    requires k < n
    ensures SwitchNames(names, n)[k] == ReaderName(names, k)
    decreases n
  {
    if k < n - 1 {
      SwitchNamesAt(names, n - 1, k);
    }
  }

  /** A reader past the end of the name list is named by its number, in decimal. */
  lemma ReaderNameIsNumber(names: seq<string>, k: nat)
    requires k >= |names|
    ensures var name := ReaderName(names, k);
      Decimal.AllDigits(name) && Decimal.Value(name) == k
  {
    Decimal.ValueOfShow(k);
  }

  /** No reader object appears twice in the list. */
  predicate Distinct(rs: seq<RecordSource>) {
    forall i, j :: 0 <= i < j < |rs| ==> rs[i] != rs[j]
  }

  class MarcMultiplexReader {
    const readers: seq<RecordSource>
    const readerNames: seq<string>
    /** Position of the reader iterator: the readers before it have been switched to. */
    var readerIndex: nat
    /** Position of the name iterator. */
    var nameIndex: nat
    var readerCnt: nat
    var curReader: RecordSource?
    /** The names logged on each switch, in order. */
    var switchLog: seq<string>

    /** The readers are distinct objects, each with a valid cursor. */
    ghost predicate ReadersValid()
      reads readers
    {
      Distinct(readers) && forall k :: 0 <= k < |readers| ==> readers[k].Valid()
    }

    ghost predicate Valid()
      reads this, readers
    {
      && ReadersValid()
      && readerIndex <= |readers|
      && readerCnt == readerIndex
      && nameIndex == (if readerIndex <= |readerNames| then readerIndex else |readerNames|)
      && (curReader != null ==> 0 < readerIndex && curReader == readers[readerIndex - 1])
      && switchLog == SwitchNames(readerNames, readerIndex)
    }

    /** Every pull the multiplexer has yet to deliver, in delivery order. */
    ghost function Remaining(): seq<Pull>
      reads this, readers
      requires Valid()
    {
      (if curReader != null then curReader.Pending() else []) + Pendings(readers[readerIndex..])
    }

    constructor (readers: seq<RecordSource>, readerNames: seq<string>)
      requires Distinct(readers) && forall k :: 0 <= k < |readers| ==> readers[k].Valid()
      ensures Valid() && this.readers == readers && this.readerNames == readerNames
      ensures curReader == null && switchLog == []
      ensures Remaining() == Pendings(readers)
    {
      this.readers := readers;
      this.readerNames := readerNames;
      readerIndex := 0;
      nameIndex := 0;
      readerCnt := 0;
      curReader := null;
      switchLog := [];
      new;
      assert readers[0..] == readers;
    }

    /** hasNext: skips exhausted readers, logging the name of each reader it
        switches to, until one has a pull left or none is left. */
    method HasNext() returns (b: bool)
      requires Valid()
      modifies this
      ensures Valid() && Remaining() == old(Remaining())
      ensures b <==> Remaining() != []
      ensures b ==> curReader != null && curReader.HasNext()
      ensures !b ==> curReader == null && readerIndex == |readers|
      ensures old(readerIndex) <= readerIndex && switchLog[..old(readerIndex)] == old(switchLog)
    {
      while curReader == null || !curReader.HasNext()
        invariant Valid() && Remaining() == old(Remaining())
        invariant old(readerIndex) <= readerIndex && switchLog[..old(readerIndex)] == old(switchLog)
        decreases |readers| - readerIndex
      {
        if readerIndex < |readers| {
          SwitchReader();
        } else {
          Exhausted();
          return false;
        }
      }
      assert curReader.Pending() != [];
      b := true;
    }

    /** The end of hasNext's loop when no reader is left: nothing remains, and
        the current reader is dropped. */
    method Exhausted()
      requires Valid() && readerIndex == |readers| && (curReader == null || !curReader.HasNext())
      modifies this`curReader
      ensures Valid() && curReader == null
      ensures Remaining() == old(Remaining()) == []
    {
      assert readers[readerIndex..] == [];
      curReader := null;
    }

    /** One step of hasNext's loop: takes the next reader's name (or the count
        of readers so far), logs it and makes the next reader current. */
    method SwitchReader()
      requires Valid() && readerIndex < |readers| && (curReader == null || !curReader.HasNext())
      modifies this
      ensures Valid() && Remaining() == old(Remaining())
      ensures readerIndex == old(readerIndex) + 1 && curReader == readers[old(readerIndex)]
      ensures switchLog == old(switchLog) + [ReaderName(readerNames, old(readerIndex))]
    {
      ghost var i := readerIndex;
      PendingsFrom(readers, i);
      assert ReadersValid();
      ghost var rest := Pendings(readers[i + 1..]);
      assert old(Remaining()) == readers[i].Pending() + rest;
      var readerName := TakeName();
      switchLog, curReader, readerIndex, readerCnt := switchLog + [readerName], readers[readerIndex], readerIndex + 1, readerCnt + 1;
      PendingsUnchanged(readers[i + 1..]);
      assert Remaining() == readers[i].Pending() + rest;
    }

    /** The name part of a switch: the next entry of the name iterator while it
        has one, else the count of readers switched so far, in decimal. */
    method TakeName() returns (readerName: string)
      requires nameIndex == (if readerIndex <= |readerNames| then readerIndex else |readerNames|)
      requires readerCnt == readerIndex
      modifies this`nameIndex
      ensures readerName == ReaderName(readerNames, readerIndex)
      ensures nameIndex == (if readerIndex + 1 <= |readerNames| then readerIndex + 1 else |readerNames|)
    {
      if nameIndex < |readerNames| {
        readerName := readerNames[nameIndex];
        nameIndex := nameIndex + 1;
      } else {
        readerName := Decimal.Show(readerCnt);
      }
    }

    /** next: delegates to the current reader. */
    method Next() returns (r: Result<Record, string>)
      requires Valid() && curReader != null && curReader.HasNext()
      modifies curReader
      ensures Valid() && Remaining() == old(Remaining())[1..]
      ensures match old(Remaining())[0]
        case Got(v) => r.Success? && fresh(r.value) && r.value.Value() == v
        case Broken(cause) => r == Failure(cause)
    {
      assert curReader !in readers[readerIndex..];
      r := curReader.Next();
    }
  }

  /** The pending pulls of readers whose cursors did not move are the same. */
  twostate lemma PendingsUnchanged(rs: seq<RecordSource>)
    requires forall k :: 0 <= k < |rs| ==> old(rs[k].Valid()) && unchanged(rs[k])
    ensures forall k :: 0 <= k < |rs| ==> rs[k].Valid()
    ensures Pendings(rs) == old(Pendings(rs))
    decreases |rs|
  {
    if rs != [] {
      PendingsUnchanged(rs[1..]);
    }
  }

  lemma PendingsFrom(rs: seq<RecordSource>, i: nat)
    requires forall k :: 0 <= k < |rs| ==> rs[k].Valid()
    requires i < |rs|
    ensures Pendings(rs[i..]) == rs[i].Pending() + Pendings(rs[i + 1..])
  {
    assert rs[i..][1..] == rs[i + 1..];
  }

  /** The multiplexer yields the first reader's pulls, then the second's, and so
      on: the pending pulls of a list split at any point are those of its parts. */
  lemma {:induction false} PendingsAppend(a: seq<RecordSource>, b: seq<RecordSource>)
    requires forall k :: 0 <= k < |a| ==> a[k].Valid()
    requires forall k :: 0 <= k < |b| ==> b[k].Valid()
    ensures forall k :: 0 <= k < |a + b| ==> (a + b)[k].Valid()
    ensures Pendings(a + b) == Pendings(a) + Pendings(b)
    decreases |a|
  {
    if a == [] {
      assert a + b == b;
    } else {
      assert (a + b)[1..] == a[1..] + b;
      PendingsAppend(a[1..], b);
    }
  }

  /** A reader with nothing left contributes nothing: exhausted readers are skipped. */
  lemma {:induction false} PendingsSkipsExhausted(rs: seq<RecordSource>, i: nat)
    requires forall k :: 0 <= k < |rs| ==> rs[k].Valid()
    requires i < |rs| && !rs[i].HasNext()
    ensures Pendings(rs) == Pendings(rs[..i]) + Pendings(rs[i + 1..])
  {
    assert rs == rs[..i] + rs[i..];
    PendingsAppend(rs[..i], rs[i..]);
    assert rs[i..][1..] == rs[i + 1..];
    assert rs[i].Pending() == [];
  }
}
