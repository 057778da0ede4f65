/**
 * The batched encoder of the embedding script. The strings are cut into
 * consecutive chunks of `batchSize`, empty strings are dropped from each chunk,
 * each chunk is sent to the embedding model in one call, and the per-chunk
 * results are concatenated in chunk order.
 *
 * The model is a parameter: `f` gives the vector of one string, and a call on
 * a batch returns one vector per string of the batch, in order. The vector
 * type `V` is left opaque.
 */
module Encoder {
  import opened Wrappers

  /** The two ways the encoder raises. */
  datatype EncodeError =
    | ZeroStep              // `range` refuses a step of zero
    | NothingToConcatenate  // no chunk was produced, and concatenating no arrays fails

  function Min(a: int, b: int): int { if a <= b then a else b }

  /** The integers `start, start + step, start + 2*step, ...` below `stop`, as Python's `range`. */
  function Range(start: nat, stop: nat, step: nat): (r: seq<nat>)
    requires step > 0
    ensures forall k :: 0 <= k < |r| ==> r[k] == start + k * step && r[k] < stop
    ensures start + |r| * step >= stop
    decreases stop - start
  {
    if start >= stop then [] else [start] + Range(start + step, stop, step)
  }

  /** Python's slice `s[lo:hi]` for `lo <= hi`: bounds past the end are clamped. */
  function PySlice<T>(s: seq<T>, lo: nat, hi: nat): seq<T>
    requires lo <= hi
  {
    s[Min(lo, |s|)..Min(hi, |s|)]
  }

  /** The slices `ss[i:i + step]` for each start `i` in `starts`, in order. */
  function SlicesAt(ss: seq<string>, starts: seq<nat>, step: nat): seq<seq<string>> {
    seq(|starts|, k requires 0 <= k < |starts| => PySlice(ss, starts[k], starts[k] + step))
  }

  /** The chunks the encoder walks over: `ss[i:i + batchSize]` for `i` in `range(0, len(ss), batchSize)`. */
  function Chunks(ss: seq<string>, batchSize: nat): seq<seq<string>>
    requires batchSize > 0
  {
    SlicesAt(ss, Range(0, |ss|, batchSize), batchSize)
  }

  /** The concatenation of a list of lists, in order. */
  function Concat<T>(xss: seq<seq<T>>): seq<T> {
    if xss == [] then [] else xss[0] + Concat(xss[1..])
  }

  /** The strings of `ss` that are truthy, i.e. non-empty, in their original order. */
  function Filter(ss: seq<string>): (r: seq<string>)
    ensures |r| <= |ss|
    ensures forall s :: s in r <==> s in ss && s != []
  {
    if ss == [] then []
    else if ss[0] != [] then [ss[0]] + Filter(ss[1..])
    else Filter(ss[1..])
  }

  /** One call of the model on a batch: one vector per string, in order. */
  function EncodeBatch<V>(f: string -> V, batch: seq<string>): (vs: seq<V>)
    ensures |vs| == |batch|
    ensures forall i :: 0 <= i < |batch| ==> vs[i] == f(batch[i])
  {
    if batch == [] then [] else [f(batch[0])] + EncodeBatch(f, batch[1..])
  }

  /** The model's answer for each chunk, with the empty strings of the chunk dropped first. */
  function EncodeChunks<V>(f: string -> V, chunks: seq<seq<string>>): seq<seq<V>> {
    seq(|chunks|, k requires 0 <= k < |chunks| => EncodeBatch(f, Filter(chunks[k])))
  }

  /**
   * The chunk starts are exactly the multiples of `batchSize` below `n`, so they
   * begin at 0 and step by `batchSize`.
   */
  lemma RangeStartsIff(n: nat, batchSize: nat, x: nat)
    requires batchSize > 0
    ensures x in Range(0, n, batchSize) <==> x < n && x % batchSize == 0
  {
    var r := Range(0, n, batchSize);
    if x < n && x % batchSize == 0 {
      var k := x / batchSize;
      assert x == k * batchSize;
      MulCancel(k, |r|, batchSize);
      assert r[k] == x;
    }
    if x in r {
      var k :| 0 <= k < |r| && r[k] == x;
      assert x == k * batchSize;
      ModOfMultiple(k, batchSize);
    }
  }

  lemma MulCancel(a: nat, b: nat, c: nat)
    requires a * c < b * c
    ensures a < b
  {
  }

  lemma ModOfMultiple(k: nat, b: nat)
    requires b > 0
    ensures (k * b) % b == 0
  {
    var x := k * b;
    var q, m := x / b, x % b;
    var d := k - q;
    assert m == b * d by {
      assert x == b * q + m;
      assert b * d == b * k - b * q;
    }
    if d >= 1 {
      assert b * d == b * (d - 1) + b;
    } else if d <= -1 {
      assert b * d == b * (d + 1) - b;
    }
  }

  /**
   * Every chunk is the slice of the input at its start, holds between 1 and
   * `batchSize` strings, and there is one chunk per start of `range`.
   */
  lemma ChunkShape(ss: seq<string>, batchSize: nat, k: nat)
    requires batchSize > 0
    requires k < |Chunks(ss, batchSize)|
    ensures |Chunks(ss, batchSize)| == |Range(0, |ss|, batchSize)|
    ensures k * batchSize < |ss|
    ensures Chunks(ss, batchSize)[k] == ss[k * batchSize..Min(k * batchSize + batchSize, |ss|)]
    ensures 0 < |Chunks(ss, batchSize)[k]| <= batchSize
  {
    var r := Range(0, |ss|, batchSize);
    assert Chunks(ss, batchSize)[k] == PySlice(ss, r[k], r[k] + batchSize);
  }

  /** Concatenating the chunks from `start` on gives back the input from `start` on. */
  lemma {:induction false} SlicesCover(ss: seq<string>, start: nat, step: nat)
    requires step > 0
    ensures Concat(SlicesAt(ss, Range(start, |ss|, step), step)) == ss[Min(start, |ss|)..]
    decreases |ss| - start
  {
    var r := Range(start, |ss|, step);
    if start < |ss| {
      var rest := Range(start + step, |ss|, step);
      assert r == [start] + rest;
      var slices := SlicesAt(ss, r, step);
      assert slices == [PySlice(ss, start, start + step)] + SlicesAt(ss, rest, step);
      SlicesCover(ss, start + step, step);
      assert ss[start..] == ss[start..Min(start + step, |ss|)] + ss[Min(start + step, |ss|)..];
    }
  }

  /** The chunks cover the input exactly and in order. */
  lemma ChunksCover(ss: seq<string>, batchSize: nat)
    requires batchSize > 0
    ensures Concat(Chunks(ss, batchSize)) == ss
  {
    SlicesCover(ss, 0, batchSize);
  }

  /** Filtering distributes over concatenation: the filter looks at one string at a time. */
  lemma {:induction false} FilterAppend(a: seq<string>, b: seq<string>)
    ensures Filter(a + b) == Filter(a) + Filter(b)
  {
    if a != [] {
      assert (a + b)[0] == a[0];
      assert (a + b)[1..] == a[1..] + b;
      FilterAppend(a[1..], b);
      if a[0] != [] {
        assert Filter(a + b) == [a[0]] + Filter(a[1..] + b);
        assert Filter(a) == [a[0]] + Filter(a[1..]);
      } else {
        assert Filter(a + b) == Filter(a[1..] + b);
        assert Filter(a) == Filter(a[1..]);
      }
    } else {
      assert a + b == b;
    }
  }

  lemma EncodeBatchAppend<V>(f: string -> V, a: seq<string>, b: seq<string>)
    ensures EncodeBatch(f, a + b) == EncodeBatch(f, a) + EncodeBatch(f, b)
  {
  }

  /**
   * Batching invariance for any cut of the input into consecutive pieces:
   * encoding piece by piece and concatenating is encoding the filtered whole.
   */
  lemma {:induction false} EncodePiecesIsEncodeWhole<V>(f: string -> V, pieces: seq<seq<string>>)
    ensures Concat(EncodeChunks(f, pieces)) == EncodeBatch(f, Filter(Concat(pieces)))
  {
    if pieces != [] {
      assert EncodeChunks(f, pieces) == [EncodeBatch(f, Filter(pieces[0]))] + EncodeChunks(f, pieces[1..]);
      EncodePiecesIsEncodeWhole(f, pieces[1..]);
      FilterAppend(pieces[0], Concat(pieces[1..]));
      EncodeBatchAppend(f, Filter(pieces[0]), Filter(Concat(pieces[1..])));
    }
  }

  /**
   * Batching invariance: for every positive batch size the concatenated chunk
   * results are the model applied to the non-empty strings, in input order.
   */
  lemma BatchingInvariance<V>(f: string -> V, ss: seq<string>, batchSize: nat)
    requires batchSize > 0
    ensures Concat(EncodeChunks(f, Chunks(ss, batchSize))) == EncodeBatch(f, Filter(ss))
  {
    EncodePiecesIsEncodeWhole(f, Chunks(ss, batchSize));
    ChunksCover(ss, batchSize);
  }

  /** The filter drops exactly the empty strings: its length is the input's minus the empty ones. */
  lemma {:induction false} FilterCount(ss: seq<string>)
    ensures |Filter(ss)| == |ss| - multiset(ss)[[]]
  {
    if ss != [] {
      assert ss == [ss[0]] + ss[1..];
      assert multiset(ss) == multiset([ss[0]]) + multiset(ss[1..]);
      FilterCount(ss[1..]);
    }
  }

  /** The filter leaves its input unchanged exactly when no string is empty. */
  lemma {:induction false} FilterIdentityIff(ss: seq<string>)
    ensures Filter(ss) == ss <==> forall i :: 0 <= i < |ss| ==> ss[i] != []
  {
    if ss != [] {
      var rest := ss[1..];
      FilterIdentityIff(rest);
      if ss[0] == [] {
        assert Filter(ss) == Filter(rest);
        assert |Filter(ss)| < |ss|;
      } else {
        assert Filter(ss) == [ss[0]] + Filter(rest);
        if forall i :: 0 <= i < |ss| ==> ss[i] != [] {
          forall i | 0 <= i < |rest| ensures rest[i] != [] { assert rest[i] == ss[i + 1]; }
          assert ss == [ss[0]] + rest;
        } else {
          var j :| 0 <= j < |ss| && ss[j] == [];
          assert rest[j - 1] == [];
          assert Filter(ss)[1..] == Filter(rest);
        }
      }
    }
  }

  /**
   * The script's `encode(strings, batch_size)`. A zero step is refused by
   * `range`; a negative step or an empty input gives no chunk, and then
   * concatenating fails; otherwise the result is the model applied to every
   * non-empty string, in input order, whatever the batch size.
   */
  method Encode<V>(f: string -> V, strings: seq<string>, batchSize: int) returns (r: Result<seq<V>, EncodeError>)
    ensures batchSize == 0 ==> r == Failure(ZeroStep)
    ensures batchSize != 0 && (batchSize < 0 || strings == []) ==> r == Failure(NothingToConcatenate)
    ensures batchSize > 0 && strings != [] ==> r == Success(EncodeBatch(f, Filter(strings)))
    ensures r.Success? ==> |r.value| == |strings| - multiset(strings)[[]]
  {
    if batchSize == 0 {
      return Failure(ZeroStep);
    }
    var allEmbeddings: seq<seq<V>> := [];
    if batchSize > 0 {
      var starts := Range(0, |strings|, batchSize);
      ghost var chunks := Chunks(strings, batchSize);
      for j := 0 to |starts|
        invariant |allEmbeddings| == j
        invariant forall k :: 0 <= k < j ==> allEmbeddings[k] == EncodeBatch(f, Filter(chunks[k]))
      {
        var i := starts[j];
        var batch := Filter(PySlice(strings, i, i + batchSize));
        var batchEmbeddings := EncodeBatch(f, batch);
        allEmbeddings := allEmbeddings + [batchEmbeddings];
      }
      assert allEmbeddings == EncodeChunks(f, chunks);
      BatchingInvariance(f, strings, batchSize);
      FilterCount(strings);
      assert strings != [] ==> 0 in starts;
    }
    if allEmbeddings == [] {
      return Failure(NothingToConcatenate);
    }
    r := Success(Concat(allEmbeddings));
  }
}
