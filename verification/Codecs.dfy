/** Fixed-width canonical encodings, and lists of them written back to back. */
module Codecs {
  import opened Base

  /** An encoding that loses nothing and accepts nothing but its own output. */
  datatype Codec<!T(!new)> = Codec(width: nat, encode: T -> seq<Byte>, decode: seq<Byte> -> Option<T>) {
    ghost predicate Valid() {
      && width > 0
      && (forall x: T :: |encode(x)| == width && decode(encode(x)) == Some(x))
      && (forall b: seq<Byte> :: |b| == width && decode(b).Some? ==> encode(decode(b).value) == b)
    }
  }

  function EncodeAll<T(!new)>(c: Codec<T>, xs: seq<T>): seq<Byte> {
    if |xs| == 0 then [] else c.encode(xs[0]) + EncodeAll(c, xs[1..])
  }

  /** The elements of a byte string; none unless it is cut exactly into encodings. */
  function DecodeAll<T(!new)>(c: Codec<T>, b: seq<Byte>): Option<seq<T>>
    decreases |b|
  {
    if |b| == 0 then Some([])
    else if |b| < c.width || c.width == 0 then None
    else
      match c.decode(b[..c.width])
      case None => None
      case Some(x) =>
        match DecodeAll(c, b[c.width..])
        case None => None
        case Some(rest) => Some([x] + rest)
  }

  lemma {:induction false} DecodesAll<T(!new)>(c: Codec<T>, xs: seq<T>)
    requires c.Valid()
    ensures |EncodeAll(c, xs)| == c.width * |xs|
    ensures DecodeAll(c, EncodeAll(c, xs)) == Some(xs)
  {
    if |xs| > 0 {
      var head, tail := c.encode(xs[0]), EncodeAll(c, xs[1..]);
      DecodesAll(c, xs[1..]);
      WidthStep(c.width, |xs|);
      assert (head + tail)[..c.width] == head && (head + tail)[c.width..] == tail;
      assert [xs[0]] + xs[1..] == xs;
    }
  }

  lemma WidthStep(width: nat, n: nat)
    requires n > 0
    ensures width + width * (n - 1) == width * n
  {
  }

  lemma {:induction false} EncodesAllDecoded<T(!new)>(c: Codec<T>, b: seq<Byte>)
    requires c.Valid() && DecodeAll(c, b).Some?
    ensures EncodeAll(c, DecodeAll(c, b).value) == b
    decreases |b|
  {
    if |b| > 0 {
      EncodesAllDecoded(c, b[c.width..]);
      var xs := DecodeAll(c, b).value;
      assert xs[1..] == DecodeAll(c, b[c.width..]).value;
      assert b == b[..c.width] + b[c.width..];
    }
  }

  /** The encoding of one value more decodes to one value more. */
  lemma {:induction false} EncodeAllAppend<T(!new)>(c: Codec<T>, xs: seq<T>, x: T)
    ensures EncodeAll(c, xs + [x]) == EncodeAll(c, xs) + c.encode(x)
  {
    if |xs| == 0 {
      assert [x][1..] == [];
    } else {
      EncodeAllAppend(c, xs[1..], x);
      assert (xs + [x])[1..] == xs[1..] + [x];
    }
  }
}
