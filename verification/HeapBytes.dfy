/** The bytes in words of memory. */
module HeapBytes {
  type Byte = n: nat | n < 256

  /** Byte `j` of a word, the lowest first. */
  function ByteOf(w: nat, j: nat): Byte { if j == 0 then w % 256 else ByteOf(w / 256, j - 1) }

  /** The word with another byte there. */
  function SetByte(w: nat, j: nat, v: Byte): nat {
    if j == 0 then w / 256 * 256 + v else SetByte(w / 256, j - 1, v) * 256 + w % 256
  }

  lemma {:induction false} OtherBytes(w: nat, j: nat, v: Byte, k: nat)
    ensures ByteOf(SetByte(w, j, v), k) == if k == j then v else ByteOf(w, k)
  {
    var w' := SetByte(w, j, v);
    if j == 0 {
      LowByte(w / 256, v);
    } else {
      LowByte(SetByte(w / 256, j - 1, v), w % 256);
      if k > 0 { OtherBytes(w / 256, j - 1, v, k - 1); }
    }
  }

  lemma LowByte(high: nat, low: Byte)
    ensures (high * 256 + low) / 256 == high && (high * 256 + low) % 256 == low
  {
  }

  /** The bytes of consecutive words. */
  function BytesOf(words: seq<nat>): (s: seq<Byte>)
    ensures |s| == 8 * |words|
  {
    seq(8 * |words|, i requires 0 <= i < 8 * |words| => ByteOf(words[i / 8], i % 8))
  }

  /** The words with another byte, the i-th from word `p` on. */
  function ByteStored(words: seq<nat>, p: nat, i: nat, v: Byte): seq<nat>
    requires p + i / 8 < |words|
  {
    words[p + i / 8 := SetByte(words[p + i / 8], i % 8, v)]
  }

  function WithByte(words: seq<nat>, i: nat, v: Byte): seq<nat>
    requires i < 8 * |words|
  {
    ByteStored(words, 0, i, v)
  }

  /** Storing a byte changes that byte and no other. */
  lemma StoreByte(words: seq<nat>, i: nat, v: Byte)
    requires i < 8 * |words|
    ensures BytesOf(WithByte(words, i, v)) == BytesOf(words)[i := v]
  {
    var words' := WithByte(words, i, v);
    forall k | 0 <= k < 8 * |words| ensures BytesOf(words')[k] == BytesOf(words)[i := v][k] {
      if k / 8 == i / 8 { OtherBytes(words[i / 8], i % 8, v, k % 8); }
    }
  }

  lemma BytesPrefix(words: seq<nat>, words': seq<nat>)
    requires words <= words'
    ensures BytesOf(words) <= BytesOf(words')
  {
    var s, s' := BytesOf(words), BytesOf(words');
    forall k | 0 <= k < |s| ensures s[k] == s'[k] {
      assert words[k / 8] == words'[k / 8];
    }
  }
}
