/**
 * `split_text(text, max_length)`: the list of slices `text[i:i + max_length]`
 * for `i` in `range(0, len(text), max_length)`.
 */
module Splitter {
  import opened Wrappers

  function Min(a: int, b: int): int { if a <= b then a else b }

  /** The chunks for a positive width `c`: one slice per start offset 0, c, 2c, ... */
  function Chunks(text: string, c: nat): seq<string>
    requires c > 0
    decreases |text|
  {
    if |text| == 0 then []
    else if |text| <= c then [text]
    else [text[..c]] + Chunks(text[c..], c)
  }

  /**
   * The whole of `split_text`, for any integer width: a zero step makes
   * `range` raise (None); a negative step gives an empty range, so no chunk.
   */
  function SplitText(text: string, maxLength: int): (r: Option<seq<string>>)
    ensures r.None? <==> maxLength == 0
    ensures maxLength < 0 ==> r == Some([])
    ensures maxLength > 0 ==> r == Some(Chunks(text, maxLength))
  {
    if maxLength == 0 then None
    else if maxLength < 0 then Some([])
    else Some(Chunks(text, maxLength))
  }

  /** The chunks joined back together. */
  function Concat(ss: seq<string>): string
  {
    if ss == [] then "" else ss[0] + Concat(ss[1..])
  }

  /** Joining the chunks in order gives back the text. */
  lemma {:induction false} ChunksConcat(text: string, c: nat)
    requires c > 0
    ensures Concat(Chunks(text, c)) == text
    decreases |text|
  {
    if |text| > c {
      ChunksConcat(text[c..], c);
      assert text == text[..c] + text[c..];
    }
  }

  /** There are exactly ceil(L / c) chunks. */
  lemma {:induction false} ChunksCount(text: string, c: nat)
    requires c > 0
    ensures |Chunks(text, c)| == (|text| + c - 1) / c
    decreases |text|
  {
    if |text| == 0 {
      assert (c - 1) / c == 0;
    } else if |text| <= c {
      assert c <= |text| + c - 1 < 2 * c;
      DivBetween(|text| + c - 1, c, 1);
    } else {
      ChunksCount(text[c..], c);
      assert |text[c..]| + c - 1 == |text| - 1;
      CeilStep(|text|, c);
    }
  }

  /** Removing one width from a length longer than it removes one chunk. */
  lemma CeilStep(n: int, c: int)
    requires 0 < c < n
    ensures (n + c - 1) / c == (n - 1) / c + 1
  {
    var q := (n - 1) / c;
    assert q * c <= n - 1 < q * c + c;
    assert (q + 1) * c == q * c + c;
    DivBetween(n + c - 1, c, q + 1);
  }

  lemma DivBetween(x: int, c: int, q: int)
    requires c > 0 && q * c <= x < q * c + c
    ensures x / c == q
  {
    var q', r' := x / c, x % c;
    assert x == q' * c + r' && 0 <= r' < c;
    if q' < q {
      MulLe(q' + 1, q, c);
    } else if q < q' {
      MulLe(q + 1, q', c);
    }
  }

  lemma MulLe(a: int, b: int, c: int)
    requires a <= b && c > 0
    ensures a * c <= b * c
  {
    assert b * c - a * c == (b - a) * c;
  }

  /** Chunk k is the slice from k*c up to (k+1)*c, clipped at the end of the text. */
  lemma {:induction false} ChunkAt(text: string, c: nat, k: nat)
    requires c > 0 && k < |Chunks(text, c)|
    ensures k * c < |text|
    ensures Chunks(text, c)[k] == text[k * c .. Min((k + 1) * c, |text|)]
    decreases |text|
  {
    if |text| > c && k > 0 {
      var rest := text[c..];
      ChunkAt(rest, c, k - 1);
      var a := (k - 1) * c;
      assert a + c == k * c;
      assert k * c + c == (k + 1) * c;
      assert Chunks(text, c)[k] == Chunks(rest, c)[k - 1];
      assert rest[a .. Min(k * c, |rest|)] == text[a + c .. Min(k * c, |rest|) + c];
    }
  }

  /**
   * Every chunk but the last has exactly c characters; the last has between
   * 1 and c; so no chunk is empty.
   */
  lemma {:induction false} ChunkLengths(text: string, c: nat)
    requires c > 0
    ensures var r := Chunks(text, c);
      && (forall k :: 0 <= k < |r| - 1 ==> |r[k]| == c)
      && (|r| > 0 ==> 1 <= |r[|r| - 1]| <= c)
    decreases |text|
  {
    if |text| > c {
      ChunkLengths(text[c..], c);
    }
  }

  /** No chunks exactly when the text is empty. */
  lemma {:induction false} ChunksEmpty(text: string, c: nat)
    requires c > 0
    ensures Chunks(text, c) == [] <==> text == ""
  {
  }
}
