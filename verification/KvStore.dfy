/** Values cut into chunks on a chain store with bounded entries (`TFKVStore`). */
module KvStore {
  import opened Lists

  const SPLIT_SIZE: nat := 1490

  /** What a blank value reads as: an empty string in JSON. */
  const BLANK := "\"\""

  function Digit(n: nat): char
    requires n < 10
  {
    '0' + n as char
  }

  function Decimal(n: nat): (s: string)
    ensures s != [] && forall i :: 0 <= i < |s| ==> s[i] != '.'
  {
    if n < 10 then [Digit(n)] else Decimal(n / 10) + [Digit(n % 10)]
  }

  lemma {:induction false} DecimalIsInjective(a: nat, b: nat)
    requires Decimal(a) == Decimal(b)
    ensures a == b
  {
    var x, y := Decimal(a), Decimal(b);
    assert Last(x) == Last(y) && Front(x) == Front(y);
    assert a < 10 <==> |x| == 1;
    assert b < 10 <==> |y| == 1;
    if a >= 10 {
      assert Front(x) == Decimal(a / 10) && Front(y) == Decimal(b / 10);
      DecimalIsInjective(a / 10, b / 10);
    }
  }

  function Sub(key: string, i: nat): string {
    key + "." + Decimal(i)
  }

  /** The key of a chunk, numbered from the value's own key. */
  function ChunkKey(key: string, i: nat): string {
    if i == 0 then key else Sub(key, i)
  }

  function Chunks(value: string): seq<string> {
    if |value| <= SPLIT_SIZE then [value] else [value[..SPLIT_SIZE]] + Chunks(value[SPLIT_SIZE..])
  }

  function Join(chunks: seq<string>): string {
    if chunks == [] then "" else chunks[0] + Join(chunks[1..])
  }

  function Read(entries: map<string, string>, key: string): string {
    if key in entries then entries[key] else ""
  }

  /** The store with chunks `from`, `from + 1`, ... written. */
  function WriteChunks(entries: map<string, string>, key: string, from: nat, chunks: seq<string>): map<string, string> {
    if chunks == [] then entries
    else WriteChunks(entries, key, from, Front(chunks))[ChunkKey(key, from + |chunks| - 1) := Last(chunks)]
  }

  predicate IsBlank(value: string) {
    value == "" || value == BLANK
  }

  function Stored(entries: map<string, string>, key: string, value: string): map<string, string> {
    if IsBlank(value) then entries - {key} else WriteChunks(entries, key, 0, Chunks(value))
  }

  function KeysBeyond(entries: map<string, string>, key: string): nat {
    var longer := set k | k in entries && |k| > |key|;
    |longer|
  }

  /** What is read on after the chunk at `key`, which was the `i`-th: each key is made from the one before. */
  function Trail(entries: map<string, string>, key: string, i: nat): string
    decreases KeysBeyond(entries, key)
  {
    var next := Sub(key, i + 1);
    if Read(entries, next) == "" then ""
    else
      TrailShrinks(entries, key, next);
      Read(entries, next) + Trail(entries, next, i + 1)
  }

  lemma TrailShrinks(entries: map<string, string>, key: string, next: string)
    requires next in entries && |next| > |key|
    ensures KeysBeyond(entries, next) < KeysBeyond(entries, key)
  {
    var longer := set k | k in entries && |k| > |key|;
    var longest := set k | k in entries && |k| > |next|;
    assert longest <= longer - {next};
    assert longer == longest + (longer - longest) && next in longer - longest;
  }

  function Retrieved(entries: map<string, string>, key: string): string {
    if Read(entries, key) == "" then BLANK else Read(entries, key) + Trail(entries, key, 0)
  }

  class TFKVStore {
    var entries: map<string, string>

    constructor ()
      ensures entries == map[]
    {
      entries := map[];
    }

    method Split(key: string, value: string) returns (splits: seq<(string, string)>)
      ensures |splits| == |Chunks(value)|
      ensures forall i :: 0 <= i < |splits| ==> splits[i] == (ChunkKey(key, i), Chunks(value)[i])
    {
      var rest, k, i := value, key, 0;
      splits := [];
      ghost var done: seq<string> := [];
      while |rest| > SPLIT_SIZE
        invariant |splits| == |done| == i && k == ChunkKey(key, i)
        invariant Chunks(value) == done + Chunks(rest)
        invariant forall j :: 0 <= j < i ==> splits[j] == (ChunkKey(key, j), done[j])
      {
        var val := rest[..SPLIT_SIZE];
        assert Chunks(rest) == [val] + Chunks(rest[SPLIT_SIZE..]);
        splits := splits + [(k, val)];
        assert done + ([val] + Chunks(rest[SPLIT_SIZE..])) == (done + [val]) + Chunks(rest[SPLIT_SIZE..]);
        done := done + [val];
        i := i + 1;
        k := Sub(key, i);
        rest := rest[SPLIT_SIZE..];
      }
      assert Chunks(value) == done + [rest];
      splits := splits + [(k, rest)];
    }

    method Set(key: string, value: string)
      modifies this
      ensures entries == Stored(old(entries), key, value)
    {
      if value == "" || value == BLANK {
        Remove(key);
        return;
      }
      var splits := Split(key, value);
      ghost var chunks := Chunks(value);
      for i := 0 to |splits|
        invariant entries == WriteChunks(old(entries), key, 0, chunks[..i])
      {
        TakeStep(chunks, i);
        entries := entries[splits[i].0 := splits[i].1];
      }
      TakeAll(chunks);
    }

    method Remove(key: string)
      modifies this
      ensures entries == old(entries) - {key}
    {
      if key in entries {
        entries := entries - {key};
      }
    }

    method Get(key: string) returns (value: string)
      ensures value == Retrieved(entries, key)
    {
      value := Read(entries, key);
      if value == "" {
        return BLANK;
      }
      var i, k, val := 0, key, value;
      ghost var more := Trail(entries, key, 0);
      while val != ""
        invariant val == "" ==> value == Retrieved(entries, key)
        invariant val != "" ==> value + Trail(entries, k, i) == Read(entries, key) + more
        decreases val != "", KeysBeyond(entries, k)
      {
        ghost var before := k;
        i := i + 1;
        k := Sub(k, i);
        val := Read(entries, k);
        if val != "" {
          TrailShrinks(entries, before, k);
          assert (value + val) + Trail(entries, k, i) == value + (val + Trail(entries, k, i));
        }
        value := value + val;
      }
    }
  }

  /** A blank value takes the key out, which then reads as blank; other keys are left alone. */
  lemma BlankRemoves(entries: map<string, string>, key: string, value: string)
    requires value == "" || value == "\"\""
    ensures var after := Stored(entries, key, value);
            && key !in after && Retrieved(after, key) == "\"\""
            && forall k :: k != key ==> (k in after <==> k in entries) && (k in after ==> after[k] == entries[k])
  {
  }

  // ----- Cutting and joining

  /** Joining the chunks gives the value back; all chunks but the last are full and none is longer. */
  lemma {:induction false} SplitJoins(value: string)
    ensures Join(Chunks(value)) == value
    ensures forall i :: 0 <= i < |Chunks(value)| ==> |Chunks(value)[i]| <= SPLIT_SIZE
    ensures forall i :: 0 <= i < |Chunks(value)| - 1 ==> |Chunks(value)[i]| == SPLIT_SIZE
    ensures value != "" ==> Last(Chunks(value)) != ""
    decreases |value|
  {
    if |value| <= SPLIT_SIZE {
      assert Join([]) == "";
      assert [value][1..] == [];
    } else {
      SplitJoins(value[SPLIT_SIZE..]);
      assert Chunks(value)[1..] == Chunks(value[SPLIT_SIZE..]);
      assert value == value[..SPLIT_SIZE] + value[SPLIT_SIZE..];
    }
  }

  /** No chunk overwrites another. */
  lemma ChunkKeysDistinct(key: string, i: nat, j: nat)
    requires ChunkKey(key, i) == ChunkKey(key, j)
    ensures i == j
  {
    var n := |key| + 1;
    if i > 0 && j > 0 {
      assert Sub(key, i)[n..] == Decimal(i) && Sub(key, j)[n..] == Decimal(j);
      DecimalIsInjective(i, j);
    } else {
      assert i > 0 ==> |Sub(key, i)| > |key|;
      assert j > 0 ==> |Sub(key, j)| > |key|;
    }
  }

  lemma {:induction false} ReadWritten(entries: map<string, string>, key: string, chunks: seq<string>, i: nat)
    requires i < |chunks|
    ensures Read(WriteChunks(entries, key, 0, chunks), ChunkKey(key, i)) == chunks[i]
  {
    var n := |chunks| - 1;
    if i < n {
      LaterKeyDiffers(key, i, n);
      ReadWritten(entries, key, Front(chunks), i);
      assert Front(chunks)[i] == chunks[i];
    }
  }

  lemma LaterKeyDiffers(key: string, i: nat, j: nat)
    requires i < j
    ensures ChunkKey(key, i) != ChunkKey(key, j)
  {
    if ChunkKey(key, i) == ChunkKey(key, j) {
      ChunkKeysDistinct(key, i, j);
    }
  }

  lemma {:induction false} ReadElsewhere(entries: map<string, string>, key: string, chunks: seq<string>, k: string)
    requires forall i: nat :: i < |chunks| ==> k != ChunkKey(key, i)
    ensures Read(WriteChunks(entries, key, 0, chunks), k) == Read(entries, k)
  {
    if chunks != [] {
      ReadElsewhere(entries, key, Front(chunks), k);
      assert k != ChunkKey(key, |chunks| - 1);
    }
  }

  // ----- Reading on

  predicate Beyond(k: string, key: string) {
    key + "." <= k
  }

  /** Reading on only depends on keys that extend the one before by a dot. */
  lemma {:induction false} TrailFrame(e: map<string, string>, e': map<string, string>, key: string, i: nat)
    requires forall k :: Beyond(k, key) ==> Read(e, k) == Read(e', k)
    ensures Trail(e, key, i) == Trail(e', key, i)
    decreases KeysBeyond(e, key)
  {
    var next := Sub(key, i + 1);
    assert Beyond(next, key);
    if Read(e, next) != "" {
      TrailShrinks(e, key, next);
      TrailShrinks(e', key, next);
      forall k | Beyond(k, next) ensures Beyond(k, key) {
        assert key + "." <= next <= k;
      }
      TrailFrame(e, e', next, i + 1);
    }
  }

  /** The dotted keys read on from the first chunk after the value's own are no chunk keys. */
  lemma BeyondFirstChunk(key: string, k: string, i: nat)
    requires Beyond(k, Sub(key, 1))
    ensures k != ChunkKey(key, i)
  {
    var n := |key| + 1;
    var first := Sub(key, 1);
    assert first[n..] == Decimal(1) == "1";
    assert k[|first|] == '.' && |first| == n + 1;
    if i > 0 {
      var other := Sub(key, i);
      assert other[n..] == Decimal(i);
      assert |other| > n + 1 ==> other[n + 1] == Decimal(i)[1];
    }
  }

  /** What is read after the two chunks a reading can follow: leftovers of earlier values. */
  function Leftover(entries: map<string, string>, key: string, value: string): string {
    if |value| <= SPLIT_SIZE then Trail(entries, key, 0) else Trail(entries, Sub(key, 1), 1)
  }

  function Cut(value: string): string {
    if |value| <= 2 * SPLIT_SIZE then value else value[..2 * SPLIT_SIZE]
  }

  lemma TwoChunks(value: string)
    requires |value| > SPLIT_SIZE
    ensures |Chunks(value)| >= 2 && Chunks(value)[0] + Chunks(value)[1] == Cut(value) && Chunks(value)[1] != ""
  {
    var rest := value[SPLIT_SIZE..];
    if |rest| <= SPLIT_SIZE {
      assert Chunks(value) == [value[..SPLIT_SIZE], rest];
    } else {
      assert Chunks(value)[1] == rest[..SPLIT_SIZE];
      assert value[..SPLIT_SIZE] + rest[..SPLIT_SIZE] == Cut(value);
    }
  }

  lemma ShortSetThenGet(entries: map<string, string>, key: string, value: string)
    requires !IsBlank(value) && |value| <= SPLIT_SIZE
    ensures Retrieved(Stored(entries, key, value), key) == value + Trail(entries, key, 0)
  {
    var chunks, after := Chunks(value), Stored(entries, key, value);
    ReadWritten(entries, key, chunks, 0);
    forall k | Beyond(k, key) ensures Read(after, k) == Read(entries, k) {
      ReadElsewhere(entries, key, chunks, k);
    }
    TrailFrame(after, entries, key, 0);
  }

  /** The first two chunks are read back as they were written, and what follows them as it was before. */
  lemma LongSetThenGet(entries: map<string, string>, key: string, value: string)
    requires !IsBlank(value) && |value| > SPLIT_SIZE
    ensures |Chunks(value)| >= 2
    ensures Read(Stored(entries, key, value), key) == Chunks(value)[0]
    ensures Trail(Stored(entries, key, value), key, 0) == Chunks(value)[1] + Trail(entries, Sub(key, 1), 1)
  {
    var chunks, after, first := Chunks(value), Stored(entries, key, value), Sub(key, 1);
    TwoChunks(value);
    ReadWritten(entries, key, chunks, 0);
    ReadWritten(entries, key, chunks, 1);
    assert Read(after, first) == chunks[1];
    forall k | Beyond(k, first) ensures Read(after, k) == Read(entries, k) {
      forall i: nat | i < |chunks| ensures k != ChunkKey(key, i) {
        BeyondFirstChunk(key, k, i);
      }
      ReadElsewhere(entries, key, chunks, k);
    }
    TrailFrame(after, entries, first, 1);
  }

  /** On any store: what was set reads back up to two chunks, followed by whatever was left there before. */
  lemma SetThenGet(entries: map<string, string>, key: string, value: string)
    requires !IsBlank(value)
    ensures Retrieved(Stored(entries, key, value), key) == Cut(value) + Leftover(entries, key, value)
  {
    if |value| <= SPLIT_SIZE {
      ShortSetThenGet(entries, key, value);
    } else {
      LongSetThenGet(entries, key, value);
      TwoChunks(value);
      var first, second, rest := Chunks(value)[0], Chunks(value)[1], Trail(entries, Sub(key, 1), 1);
      assert first != "" by { FirstChunkFull(value); }
      assert (first + second) + rest == first + (second + rest);
    }
  }

  lemma FirstChunkFull(value: string)
    requires |value| > SPLIT_SIZE
    ensures |Chunks(value)| > 0 && |Chunks(value)[0]| == SPLIT_SIZE
  {
  }

  /** Where nothing is left over, a value comes back exactly if it fits two chunks. */
  lemma RoundTripIff(entries: map<string, string>, key: string, value: string)
    requires !IsBlank(value) && Leftover(entries, key, value) == ""
    ensures Retrieved(Stored(entries, key, value), key) == value <==> |value| <= 2 * SPLIT_SIZE
  {
    SetThenGet(entries, key, value);
  }

  /** Up to two chunks, a value comes back exactly if nothing is left over from earlier values. */
  lemma ShortRoundTripIff(entries: map<string, string>, key: string, value: string)
    requires !IsBlank(value) && |value| <= 2 * SPLIT_SIZE
    ensures Retrieved(Stored(entries, key, value), key) == value <==>
            Read(entries, if |value| <= SPLIT_SIZE then Sub(key, 1) else Sub(Sub(key, 1), 2)) == ""
  {
    SetThenGet(entries, key, value);
  }

  /** Replacing a long value by a short one leaves a stale chunk that reading picks up. */
  lemma StaleChunk(entries: map<string, string>, key: string, long: string, short: string)
    requires !IsBlank(long) && !IsBlank(short) && |long| > SPLIT_SIZE && |short| <= SPLIT_SIZE
    ensures Retrieved(Stored(Stored(entries, key, long), key, short), key) != short
  {
    TwoChunks(long);
    ReadWritten(entries, key, Chunks(long), 1);
    ShortRoundTripIff(Stored(entries, key, long), key, short);
  }
}
