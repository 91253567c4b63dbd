/** The interpolation search over the index of a record file. */
module IndexSearch {
  import opened Wire
  import opened Words

  datatype Entry = Entry(when: nat, offs: nat)

  /** What a search yields. Division by zero stops the program. */
  datatype Outcome = Offset(offs: nat) | Invalid | DivisionByZero

  /** How long after the last record a time still finds it. */
  const GRACE := 90

  // ---- Index files ----

  function EntryBytes(e: Entry): (s: seq<bv8>)
    ensures |s| == 16
  {
    EncNat(e.when, 8) + EncNat(e.offs, 8)
  }

  function IndexBytes(es: seq<Entry>): (s: seq<bv8>)
    ensures |s| == 16 * |es|
  {
    if es == [] then [] else IndexBytes(es[..|es| - 1]) + EntryBytes(es[|es| - 1])
  }

  predicate InWords(es: seq<Entry>) {
    forall e :: e in es ==> e.when < U64 && e.offs < U64
  }

  lemma {:induction false} EntryAt(es: seq<Entry>, k: nat)
    requires k < |es|
    ensures IndexBytes(es)[16 * k..16 * k + 16] == EntryBytes(es[k])
  {
    var n := |es| - 1;
    var before := IndexBytes(es[..n]);
    if k < n {
      EntryAt(es[..n], k);
      assert IndexBytes(es)[16 * k..16 * k + 16] == before[16 * k..16 * k + 16];
    } else {
      assert IndexBytes(es)[16 * k..16 * k + 16] == EntryBytes(es[k]);
    }
  }

  lemma WordsAt(es: seq<Entry>, k: nat)
    requires k < |es| && InWords(es)
    ensures DecNat(IndexBytes(es)[16 * k..16 * k + 8]) == es[k].when
    ensures DecNat(IndexBytes(es)[16 * k + 8..16 * k + 16]) == es[k].offs
  {
    var s := IndexBytes(es);
    EntryAt(es, k);
    assert es[k] in es;
    assert s[16 * k..16 * k + 8] == s[16 * k..16 * k + 16][..8] == EncNat(es[k].when, 8);
    assert s[16 * k + 8..16 * k + 16] == s[16 * k..16 * k + 16][8..] == EncNat(es[k].offs, 8);
    EightBytes();
    NatRoundTrip(es[k].when, 8);
    NatRoundTrip(es[k].offs, 8);
  }

  /** A file opened for reading, with the place of the next read. */
  class File {
    const bytes: seq<bv8>
    var cursor: nat

    constructor (bytes: seq<bv8>)
      ensures this.bytes == bytes && cursor == 0
    {
      this.bytes, cursor := bytes, 0;
    }

    /** localdb_read64: 0 where there is no whole word left. */
    method Read64() returns (v: nat)
      modifies this`cursor
      ensures old(cursor) + 8 <= |bytes| ==> v == DecNat(bytes[old(cursor)..old(cursor) + 8]) && cursor == old(cursor) + 8
      ensures old(cursor) + 8 > |bytes| ==> v == 0 && cursor >= old(cursor)
    {
      if cursor + 8 <= |bytes| {
        v := DecNat(bytes[cursor..cursor + 8]);
        cursor := cursor + 8;
      } else {
        v := 0;
        cursor := if cursor < |bytes| then |bytes| else cursor;
      }
    }

    /** fseek refuses to go before the start. */
    method Seek(to: int) returns (ok: bool)
      modifies this`cursor
      ensures ok == (to >= 0) && cursor == if ok then to else old(cursor)
    {
      ok := to >= 0;
      if ok {
        cursor := to;
      }
    }
  }

  // ---- What is searched for ----

  predicate Ordered(es: seq<Entry>) {
    forall i, j :: 0 <= i <= j < |es| ==> es[i].when <= es[j].when
  }

  /** The linear scan: on from k while the next entry is not past ts. */
  function Scan(es: seq<Entry>, ts: nat, k: nat): (i: nat)
    requires k < |es|
    ensures k <= i < |es|
    decreases |es| - k
  {
    if k + 1 < |es| && es[k + 1].when <= ts then Scan(es, ts, k + 1) else k
  }

  /** The scan stops at the one entry that is not past ts while the next is. */
  lemma {:induction false} ScanFinds(es: seq<Entry>, ts: nat, k: nat, i: nat)
    requires Ordered(es) && k <= i < |es| && es[i].when <= ts && (i + 1 < |es| ==> ts < es[i + 1].when)
    ensures Scan(es, ts, k) == i
    decreases i - k
  {
    if k < i {
      assert es[k + 1].when <= es[i].when;
      ScanFinds(es, ts, k + 1, i);
    }
  }

  /** Every entry up to where the scan stops is not past ts, every later one is. */
  lemma {:induction false} ScanSplits(es: seq<Entry>, ts: nat, k: nat)
    requires Ordered(es) && k < |es| && es[k].when <= ts
    ensures forall j :: 0 <= j < |es| ==> (es[j].when <= ts <==> j <= Scan(es, ts, k))
    decreases |es| - k
  {
    if k + 1 < |es| && es[k + 1].when <= ts {
      ScanSplits(es, ts, k + 1);
    } else {
      forall j | 0 <= j < |es| ensures es[j].when <= ts <==> j <= k {
        assert j <= k ==> es[j].when <= es[k].when;
        assert j > k ==> es[k + 1].when <= es[j].when;
      }
    }
  }

  /** What the search is for: the offset of the last entry not past ts, none before the first
      record or more than the grace period after the last. */
  function Wanted(es: seq<Entry>, ts: nat): Outcome {
    if es == [] || ts < es[0].when || es[|es| - 1].when + GRACE < ts then Invalid
    else Offset(es[Scan(es, ts, 0)].offs)
  }

  /** What the code yields: with one record, offset 0 at any time; with several all of one
      time, a division by zero. */
  function Search(es: seq<Entry>, ts: nat): Outcome {
    if |es| == 1 then Offset(0)
    else if Wanted(es, ts).Offset? && es[0].when == es[|es| - 1].when then DivisionByZero
    else Wanted(es, ts)
  }

  /** The code finds what is wanted unless it has a single record and is asked outside its time,
      or several records of one time and asked within it. */
  lemma SearchIsScan(es: seq<Entry>, ts: nat)
    requires Ordered(es) && (es != [] ==> es[0].offs == 0)
    ensures Search(es, ts) == Wanted(es, ts) <==>
      es == [] || if |es| == 1 then es[0].when <= ts <= es[0].when + 90
                  else es[0].when < es[|es| - 1].when || ts < es[0].when || es[0].when + 90 < ts
  {
    if |es| > 1 {
      assert es[0].when <= es[|es| - 1].when;
    }
  }

  /** Several records are not found before the first and from 91 seconds after the last. If all are
      of one time the program stops when that time, or one up to 90 seconds later, is asked for. */
  lemma OutOfTime(es: seq<Entry>, ts: nat)
    requires Ordered(es) && |es| != 1
    ensures es == [] || ts < es[0].when || es[|es| - 1].when + 90 < ts ==> Search(es, ts) == Invalid
    ensures es != [] && es[0].when == es[|es| - 1].when <= ts <= es[0].when + 90 ==> Search(es, ts) == DivisionByZero
  {
  }

  // ---- The search ----

  lemma MulMono(a: nat, b: nat, c: nat)
    requires b <= c
    ensures a * b <= a * c
  {
  }

  lemma DivMono(a: nat, b: nat, d: nat)
    requires a <= b && d > 0
    ensures a / d <= b / d
  {
    if a / d > b / d {
      MulMono(d, b / d + 1, a / d);
    }
  }

  /** The first guess lies in the file, even if the product wraps around. */
  lemma GuessInFile(count: nat, diff: nat, range: nat)
    requires diff <= range && range > 0
    ensures (count * diff) % U64 / range <= count
  {
    MulMono(count, diff, range);
    DivMono((count * diff) % U64, count * range, range);
    DivShift(0, range, count);
  }

  method FindIndex(f: File, ghost es: seq<Entry>, when: nat) returns (r: Outcome)
    requires f.bytes == IndexBytes(es) && InWords(es) && Ordered(es) && when < U64
    requires forall e :: e in es ==> e.when > 0
    modifies f`cursor
    ensures r == Search(es, when)
  {
    hide IndexBytes, InWords, DecNat;
    ghost var n := |es|;
    var ok := f.Seek(0);
    var first := f.Read64();
    ok := f.Seek(|f.bytes| - 16);
    if !ok {
      return Invalid;
    }
    var count := f.cursor / 16 + 1;
    WordsAt(es, 0);
    WordsAt(es, n - 1);
    if count < 2 {
      return Offset(0);
    }
    var last := f.Read64();
    assert first == es[0].when <= last == es[n - 1].when;
    r := Interpolate(f, es, count, first, last, when);
  }

  method Interpolate(f: File, ghost es: seq<Entry>, count: nat, first: nat, last: nat, when: nat) returns (r: Outcome)
    requires f.bytes == IndexBytes(es) && InWords(es) && Ordered(es) && when < U64
    requires forall e :: e in es ==> e.when > 0
    requires count == |es| >= 2 && first == es[0].when <= last == es[|es| - 1].when
    modifies f`cursor
    ensures r == Search(es, when)
  {
    hide IndexBytes, InWords, DecNat;
    var ts := when;
    if first > ts {
      return Invalid;
    }
    if last < ts {
      if ts - last > GRACE {
        return Invalid;
      }
      ts := last;
      ScanFinds(es, when, 0, |es| - 1);
      ScanFinds(es, ts, 0, |es| - 1);
    }
    var range := last - first;
    var diff := ts - first;
    if range == 0 {
      return DivisionByZero;
    }
    GuessInFile(count, diff, range);
    var pos := (count * diff) % U64 / range;
    if pos != 0 {
      pos := pos - 1;
    }
    var offs := FromGuess(f, es, pos, ts);
    r := Offset(offs);
  }

  method FromGuess(f: File, ghost es: seq<Entry>, pos: nat, ts: nat) returns (offs: nat)
    requires f.bytes == IndexBytes(es) && InWords(es) && Ordered(es)
    requires forall e :: e in es ==> e.when > 0
    requires pos < |es| && es[0].when <= ts <= es[|es| - 1].when
    modifies f`cursor
    ensures offs == es[Scan(es, ts, 0)].offs
  {
    hide IndexBytes, InWords, DecNat;
    var ok := f.Seek(16 * pos);
    WordsAt(es, pos);
    var tsatpos := f.Read64();
    if tsatpos <= ts {
      offs := Forward(f, es, pos, tsatpos, ts);
    } else {
      offs := Backward(f, es, pos, tsatpos, ts);
    }
  }

  method Forward(f: File, ghost es: seq<Entry>, pos: nat, at: nat, ts: nat) returns (lastmatch: nat)
    requires f.bytes == IndexBytes(es) && InWords(es) && Ordered(es) && f.cursor == 16 * pos + 8
    requires forall e :: e in es ==> e.when > 0
    requires pos < |es| && at == es[pos].when <= ts <= es[|es| - 1].when
    modifies f`cursor
    ensures lastmatch == es[Scan(es, ts, 0)].offs
  {
    hide IndexBytes, InWords, DecNat;
    ghost var k := pos;
    var tsatpos := at;
    lastmatch := 0;
    while tsatpos <= ts
      invariant k < |es| && f.cursor == 16 * k + 8 && tsatpos == es[k].when
      invariant tsatpos > ts ==> k > 0 && es[k - 1].when <= ts && lastmatch == es[k - 1].offs
      decreases |es| - k
    {
      WordsAt(es, k);
      var tmp := f.Read64();
      if k + 1 < |es| {
        WordsAt(es, k + 1);
        assert es[k + 1] in es;
      }
      var newts := f.Read64();
      if newts != 0 {
        lastmatch := tmp;
        tsatpos := newts;
        k := k + 1;
      } else {
        ScanFinds(es, ts, 0, k);
        if tsatpos == ts {
          return tmp;
        }
        return lastmatch;
      }
    }
    ScanFinds(es, ts, 0, k - 1);
  }

  method Backward(f: File, ghost es: seq<Entry>, pos: nat, at: nat, ts: nat) returns (lastmatch: nat)
    requires f.bytes == IndexBytes(es) && InWords(es) && Ordered(es) && f.cursor == 16 * pos + 8
    requires pos < |es| && es[0].when <= ts < at == es[pos].when
    modifies f`cursor
    ensures lastmatch == es[Scan(es, ts, 0)].offs
  {
    hide IndexBytes, InWords, DecNat;
    ghost var k := pos;
    var tsatpos := at;
    WordsAt(es, k);
    lastmatch := f.Read64();
    while tsatpos > ts
      invariant 0 <= k < |es| && f.cursor == 16 * k + 16 && tsatpos == es[k].when && lastmatch == es[k].offs
      invariant k + 1 < |es| && tsatpos <= ts ==> ts < es[k + 1].when
      decreases k
    {
      var ok := f.Seek(f.cursor - 32);
      if !ok {
        assert false;
        return;
      }
      k := k - 1;
      WordsAt(es, k);
      tsatpos := f.Read64();
      lastmatch := f.Read64();
    }
    ScanFinds(es, ts, 0, k);
  }
}
