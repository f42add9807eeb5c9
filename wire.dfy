/**
 * The byte stream of a packet payload, seen as a sequence of primitive tokens.
 *
 * The packet code reads and writes its payload through a serializer whose
 * primitives (unsigned varints, length-prefixed strings, bytes, little-endian
 * shorts and ints, booleans) belong to the protocol library. Their byte-level
 * encodings are not part of this model: each primitive is one token. The
 * fixed-width tokens keep their width (1, 2 or 4 bytes), so the choice of
 * index width stays observable.
 */
module Wire {
  import opened Wrappers

  type uint8 = x: int | 0 <= x < 0x100
  type uint16 = x: int | 0 <= x < 0x1_0000
  type uint32 = x: int | 0 <= x < 0x1_0000_0000
  type int32 = x: int | -0x8000_0000 <= x < 0x8000_0000

  /** One primitive of the wire format; fixed-width tokens hold their unsigned bit pattern. */
  datatype Token =
    | VarInt(n: nat)
    | Str(s: string)
    | Byte(b: uint8)
    | LShort(v: uint16)
    | LInt(w: uint32)
    | Bool(flag: bool)

  predicate IsFixedWidth(t: Token) {
    t.Byte? || t.LShort? || t.LInt?
  }

  /** Number of bytes a fixed-width token occupies on the wire. */
  function ByteWidth(t: Token): nat
    requires IsFixedWidth(t)
  {
    match t
    case Byte(_) => 1
    case LShort(_) => 2
    case LInt(_) => 4
  }

  /** A value read from the stream together with the tokens left after it. */
  datatype Parsed<+T> = Parsed(item: T, rest: seq<Token>)

  /** The outcome of reading: `None` when the stream does not hold what is expected. */
  type Parse<T> = Option<Parsed<T>>

  /** The signed reading of a 32-bit little-endian int. */
  function Signed(w: uint32): int32 {
    if w < 0x8000_0000 then w else w - 0x1_0000_0000
  }

  /** The low 32 bits of an integer, as written by a 4-byte put. */
  function Low32(x: int): uint32 {
    x % 0x1_0000_0000
  }

  // Reading primitives (the serializer's get* calls).

  function ReadUnsignedVarInt(ts: seq<Token>): Parse<nat> {
    if |ts| > 0 && ts[0].VarInt? then Some(Parsed(ts[0].n, ts[1..])) else None
  }

  function ReadString(ts: seq<Token>): Parse<string> {
    if |ts| > 0 && ts[0].Str? then Some(Parsed(ts[0].s, ts[1..])) else None
  }

  function ReadByte(ts: seq<Token>): Parse<uint8> {
    if |ts| > 0 && ts[0].Byte? then Some(Parsed(ts[0].b, ts[1..])) else None
  }

  function ReadLShort(ts: seq<Token>): Parse<uint16> {
    if |ts| > 0 && ts[0].LShort? then Some(Parsed(ts[0].v, ts[1..])) else None
  }

  /** `getLInt` returns the signed value of the four bytes. */
  function ReadLInt(ts: seq<Token>): Parse<int32> {
    if |ts| > 0 && ts[0].LInt? then Some(Parsed(Signed(ts[0].w), ts[1..])) else None
  }

  function ReadBool(ts: seq<Token>): Parse<bool> {
    if |ts| > 0 && ts[0].Bool? then Some(Parsed(ts[0].flag, ts[1..])) else None
  }

  // Writing primitives (the serializer's put* calls), which keep only the low bits of their argument.

  function ByteToken(x: int): Token {
    Byte(x % 0x100)
  }

  function LShortToken(x: int): Token {
    LShort(x % 0x1_0000)
  }

  function LIntToken(x: int): Token {
    LInt(Low32(x))
  }

  /** A 4-byte write read back with `getLInt` gives the value back exactly when it fits in 32 signed bits. */
  lemma LIntRoundTrip(x: int, rest: seq<Token>)
    ensures ReadLInt([LIntToken(x)] + rest) == Some(Parsed(Signed(Low32(x)), rest))
    ensures -0x8000_0000 <= x < 0x8000_0000 <==> ReadLInt([LIntToken(x)] + rest) == Some(Parsed(x, rest))
  {
    assert ([LIntToken(x)] + rest)[1..] == rest;
  }

  /** A byte write read back with `getByte` gives the value back exactly when it is in 0..255. */
  lemma ByteRoundTrip(x: int, rest: seq<Token>)
    ensures 0 <= x < 0x100 <==> ReadByte([ByteToken(x)] + rest) == Some(Parsed(x, rest))
  {
    assert ([ByteToken(x)] + rest)[1..] == rest;
  }

  // Counted loops: a count followed by that many records.

  /** Reads `n` records with `read`, appending them to `acc` (the body of a `for` loop over a count). */
  function Repeat<T>(read: seq<Token> -> Parse<T>, n: nat, ts: seq<Token>, acc: seq<T>): Parse<seq<T>>
    decreases n
  {
    if n == 0 then Some(Parsed(acc, ts))
    else match read(ts)
      case None => None
      case Some(p) => Repeat(read, n - 1, p.rest, acc + [p.item])
  }

  /** An unsigned varint count, then that many records. */
  function ReadList<T>(read: seq<Token> -> Parse<T>, ts: seq<Token>): Parse<seq<T>> {
    var count :- ReadUnsignedVarInt(ts);
    Repeat(read, count.item, count.rest, [])
  }

  /** The tokens written for each element in turn; `None` as soon as one write fails. */
  function PutAll<U>(xs: seq<U>, put: U -> Option<seq<Token>>): Option<seq<Token>> {
    if xs == [] then Some([])
    else
      var first :- put(xs[0]);
      var others :- PutAll(xs[1..], put);
      Some(first + others)
  }

  /** `putUnsignedVarInt(count($xs))`, then each element. */
  function PutList<U>(xs: seq<U>, put: U -> Option<seq<Token>>): Option<seq<Token>> {
    var body :- PutAll(xs, put);
    Some([VarInt(|xs|)] + body)
  }

  /** Writing one more element appends its tokens: the step of a `foreach` that writes. */
  lemma {:induction false} PutAllSnoc<U>(xs: seq<U>, x: U, put: U -> Option<seq<Token>>)
    ensures PutAll(xs + [x], put) ==
            (if PutAll(xs, put).Some? && put(x).Some? then Some(PutAll(xs, put).value + put(x).value) else None)
  {
    if xs == [] {
      assert xs + [x] == [x];
      assert [x][1..] == [];
      if put(x).Some? {
        assert put(x).value + [] == [] + put(x).value;
      }
    } else {
      assert (xs + [x])[0] == xs[0];
      assert (xs + [x])[1..] == xs[1..] + [x];
      PutAllSnoc(xs[1..], x, put);
      if put(xs[0]).Some? && PutAll(xs[1..], put).Some? && put(x).Some? {
        var a, b, c := put(xs[0]).value, PutAll(xs[1..], put).value, put(x).value;
        assert a + (b + c) == (a + b) + c;
      }
    }
  }

  /** Whatever follows them, the tokens written for `x` read back as `y`. */
  ghost predicate ReadsBack<U, T>(read: seq<Token> -> Parse<T>, put: U -> Option<seq<Token>>, x: U, y: T) {
    put(x).Some? && forall r :: read(put(x).value + r) == Some(Parsed(y, r))
  }

  /**
   * Reading back what `PutAll` wrote: if each element's tokens read back as
   * `ys[i]`, the loop reads back all of `ys`, in order, and leaves exactly the
   * tokens that followed.
   */
  lemma {:induction false} RepeatPutAll<U, T>(read: seq<Token> -> Parse<T>, put: U -> Option<seq<Token>>,
                                             xs: seq<U>, ys: seq<T>, rest: seq<Token>, acc: seq<T>)
    requires |ys| == |xs|
    requires forall i :: 0 <= i < |xs| ==> ReadsBack(read, put, xs[i], ys[i])
    ensures PutAll(xs, put).Some?
    ensures Repeat(read, |xs|, PutAll(xs, put).value + rest, acc) == Some(Parsed(acc + ys, rest))
  {
    if xs == [] {
      assert ys == [] && acc + ys == acc;
      assert PutAll(xs, put).value + rest == rest;
    } else {
      assert ReadsBack(read, put, xs[0], ys[0]);
      forall i | 0 <= i < |xs[1..]|
        ensures ReadsBack(read, put, xs[1..][i], ys[1..][i])
      {
        assert xs[1..][i] == xs[i + 1] && ys[1..][i] == ys[i + 1];
        assert ReadsBack(read, put, xs[i + 1], ys[i + 1]);
      }
      RepeatPutAll(read, put, xs[1..], ys[1..], rest, acc + [ys[0]]);
      var first, others := put(xs[0]).value, PutAll(xs[1..], put).value;
      assert PutAll(xs, put).value + rest == first + (others + rest);
      assert read(first + (others + rest)) == Some(Parsed(ys[0], others + rest));
      assert acc + [ys[0]] + ys[1..] == acc + ys;
    }
  }

  /** `ReadList` reads back what `PutList` wrote, under the per-element condition of `RepeatPutAll`. */
  lemma ReadPutList<U, T>(read: seq<Token> -> Parse<T>, put: U -> Option<seq<Token>>,
                          xs: seq<U>, ys: seq<T>, rest: seq<Token>)
    requires |ys| == |xs|
    requires forall i :: 0 <= i < |xs| ==> ReadsBack(read, put, xs[i], ys[i])
    ensures PutList(xs, put).Some?
    ensures ReadList(read, PutList(xs, put).value + rest) == Some(Parsed(ys, rest))
  {
    RepeatPutAll(read, put, xs, ys, rest, []);
    var body := PutAll(xs, put).value;
    assert PutList(xs, put).value + rest == [VarInt(|xs|)] + (body + rest);
    assert [] + ys == ys;
  }

  /** Six writes in turn append the six pieces, grouped from the right. */
  lemma AppendSix(base: seq<Token>, s1: seq<Token>, s2: seq<Token>, s3: seq<Token>, s4: seq<Token>, s5: seq<Token>, s6: seq<Token>)
    ensures base + s1 + s2 + s3 + s4 + s5 + s6 == base + (s1 + (s2 + (s3 + (s4 + (s5 + s6)))))
  {
  }

  /** The step of a writing loop over `xs`: the prefix written so far grows by the next element's tokens. */
  lemma PutPrefixStep<U>(xs: seq<U>, i: nat, put: U -> Option<seq<Token>>, written: seq<Token>, item: seq<Token>)
    requires i < |xs|
    requires PutAll(xs[..i], put) == Some(written)
    requires put(xs[i]) == Some(item)
    ensures PutAll(xs[..i + 1], put) == Some(written + item)
  {
    PutAllSnoc(xs[..i], xs[i], put);
    assert xs[..i + 1] == xs[..i] + [xs[i]];
  }

  /** The step of a writing loop, with the output it appends to. */
  lemma WriteStep<U>(xs: seq<U>, i: nat, put: U -> Option<seq<Token>>, base: seq<Token>, written: seq<Token>,
                     before: seq<Token>, after: seq<Token>) returns (written': seq<Token>)
    requires i < |xs|
    requires PutAll(xs[..i], put) == Some(written) && before == base + written
    requires put(xs[i]).Some? && after == before + put(xs[i]).value
    ensures PutAll(xs[..i + 1], put) == Some(written') && after == base + written'
  {
    written' := written + put(xs[i]).value;
    PutPrefixStep(xs, i, put, written, put(xs[i]).value);
  }

  /** A writing loop that has written every element has written the list's body. */
  lemma PutListDone<U>(xs: seq<U>, put: U -> Option<seq<Token>>, written: seq<Token>)
    requires PutAll(xs[..|xs|], put) == Some(written)
    ensures PutList(xs, put) == Some([VarInt(|xs|)] + written)
  {
    assert xs[..|xs|] == xs;
  }

  /** `PutAll` succeeds exactly when every element's write succeeds. */
  lemma {:induction false} PutAllSome<U>(xs: seq<U>, put: U -> Option<seq<Token>>)
    ensures PutAll(xs, put).Some? <==> forall i :: 0 <= i < |xs| ==> put(xs[i]).Some?
  {
    if xs != [] {
      PutAllSome(xs[1..], put);
      assert forall i :: 1 <= i < |xs| ==> xs[1..][i - 1] == xs[i];
    }
  }

  /** One element whose write fails makes the whole list fail. */
  lemma PutListFails<U>(xs: seq<U>, i: nat, put: U -> Option<seq<Token>>)
    requires i < |xs| && put(xs[i]).None?
    ensures PutList(xs, put).None?
  {
    PutAllSome(xs, put);
  }

  function StringReader(): seq<Token> -> Parse<string> {
    ts => ReadString(ts)
  }

  function StringWriter(): string -> Option<seq<Token>> {
    s => Some([Str(s)])
  }

  function ByteReader(): seq<Token> -> Parse<int> {
    ts => ReadByte(ts)
  }

  function ByteWriter(): int -> Option<seq<Token>> {
    x => Some([ByteToken(x)])
  }

  /** Every string list reads back unchanged. */
  lemma StringsRoundTrip(xs: seq<string>, rest: seq<Token>)
    ensures PutList(xs, StringWriter()).Some?
    ensures ReadList(StringReader(), PutList(xs, StringWriter()).value + rest) == Some(Parsed(xs, rest))
  {
    forall i | 0 <= i < |xs|
      ensures ReadsBack(StringReader(), StringWriter(), xs[i], xs[i])
    {
      forall r ensures StringReader()(StringWriter()(xs[i]).value + r) == Some(Parsed(xs[i], r)) {
        assert ([Str(xs[i])] + r)[1..] == r;
      }
    }
    ReadPutList(StringReader(), StringWriter(), xs, xs, rest);
  }

  /** A list of bytes reads back unchanged exactly when each is in 0..255 (we prove the "if" part). */
  lemma BytesRoundTrip(xs: seq<int>, rest: seq<Token>)
    requires forall i :: 0 <= i < |xs| ==> 0 <= xs[i] < 0x100
    ensures PutList(xs, ByteWriter()).Some?
    ensures ReadList(ByteReader(), PutList(xs, ByteWriter()).value + rest) == Some(Parsed(xs, rest))
  {
    forall i | 0 <= i < |xs|
      ensures ReadsBack(ByteReader(), ByteWriter(), xs[i], xs[i])
    {
      forall r ensures ByteReader()(ByteWriter()(xs[i]).value + r) == Some(Parsed(xs[i], r)) {
        assert ([ByteToken(xs[i])] + r)[1..] == r;
      }
    }
    ReadPutList(ByteReader(), ByteWriter(), xs, xs, rest);
  }

  /** `r` and the remaining stream agree with what the reading function `spec` gives. */
  ghost predicate Yields<T>(spec: Parse<T>, r: Option<T>, rest: seq<Token>) {
    match spec
    case None => r.None?
    case Some(p) => r == Some(p.item) && rest == p.rest
  }

  /** The read side of the serializer: a buffer of tokens and an offset that every read advances. */
  class Cursor {
    const buffer: seq<Token>
    var offset: nat

    ghost predicate Valid()
      reads this
    {
      offset <= |buffer|
    }

    /** The tokens not yet read. */
    function Rest(): seq<Token>
      reads this
      requires Valid()
    {
      buffer[offset..]
    }

    constructor (b: seq<Token>)
      ensures Valid() && buffer == b && Rest() == b
    {
      buffer, offset := b, 0;
    }

    method GetUnsignedVarInt() returns (r: Option<nat>)
      requires Valid()
      modifies this
      ensures Valid() && Yields(ReadUnsignedVarInt(old(Rest())), r, Rest())
    {
      if offset < |buffer| && buffer[offset].VarInt? {
        r, offset := Some(buffer[offset].n), offset + 1;
      } else {
        r := None;
      }
    }

    method GetString() returns (r: Option<string>)
      requires Valid()
      modifies this
      ensures Valid() && Yields(ReadString(old(Rest())), r, Rest())
    {
      if offset < |buffer| && buffer[offset].Str? {
        r, offset := Some(buffer[offset].s), offset + 1;
      } else {
        r := None;
      }
    }

    method GetByte() returns (r: Option<uint8>)
      requires Valid()
      modifies this
      ensures Valid() && Yields(ReadByte(old(Rest())), r, Rest())
    {
      if offset < |buffer| && buffer[offset].Byte? {
        r, offset := Some(buffer[offset].b), offset + 1;
      } else {
        r := None;
      }
    }

    method GetLShort() returns (r: Option<uint16>)
      requires Valid()
      modifies this
      ensures Valid() && Yields(ReadLShort(old(Rest())), r, Rest())
    {
      if offset < |buffer| && buffer[offset].LShort? {
        r, offset := Some(buffer[offset].v), offset + 1;
      } else {
        r := None;
      }
    }

    method GetLInt() returns (r: Option<int32>)
      requires Valid()
      modifies this
      ensures Valid() && Yields(ReadLInt(old(Rest())), r, Rest())
    {
      if offset < |buffer| && buffer[offset].LInt? {
        r, offset := Some(Signed(buffer[offset].w)), offset + 1;
      } else {
        r := None;
      }
    }

    method GetBool() returns (r: Option<bool>)
      requires Valid()
      modifies this
      ensures Valid() && Yields(ReadBool(old(Rest())), r, Rest())
    {
      if offset < |buffer| && buffer[offset].Bool? {
        r, offset := Some(buffer[offset].flag), offset + 1;
      } else {
        r := None;
      }
    }
  }

  /** The write side of the serializer: the tokens written so far. */
  class Writer {
    var tokens: seq<Token>

    constructor ()
      ensures tokens == []
    {
      tokens := [];
    }

    method PutUnsignedVarInt(n: nat)
      modifies this
      ensures tokens == old(tokens) + [VarInt(n)]
    {
      tokens := tokens + [VarInt(n)];
    }

    method PutString(s: string)
      modifies this
      ensures tokens == old(tokens) + [Str(s)]
    {
      tokens := tokens + [Str(s)];
    }

    method PutByte(x: int)
      modifies this
      ensures tokens == old(tokens) + [ByteToken(x)]
    {
      tokens := tokens + [ByteToken(x)];
    }

    method PutLShort(x: int)
      modifies this
      ensures tokens == old(tokens) + [LShortToken(x)]
    {
      tokens := tokens + [LShortToken(x)];
    }

    method PutLInt(x: int)
      modifies this
      ensures tokens == old(tokens) + [LIntToken(x)]
    {
      tokens := tokens + [LIntToken(x)];
    }

    method PutBool(b: bool)
      modifies this
      ensures tokens == old(tokens) + [Bool(b)]
    {
      tokens := tokens + [Bool(b)];
    }
  }
}
