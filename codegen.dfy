/**
 * An abstract stand-in for Service Weaver's `codegen.Encoder` and
 * `codegen.Decoder`. The encoder's buffer is a sequence of tokens, one per
 * primitive write; `TokenSize` gives the number of bytes each token takes on
 * the wire (a string is a 4-byte length followed by its UTF-8 bytes, a bool
 * one byte). A decoder that meets a token of the wrong kind, or runs out of
 * tokens, sets `failed`: this stands for the panic the real decoder raises,
 * which the generated server stubs turn into an error.
 */
module Codegen {
  import opened Wrappers

  datatype Token =
    | TString(s: string)
    | TInt64(i: int)
    | TBool(b: bool)
    | TLen(n: int)
    /** The output of an `encoding.BinaryMarshaler` (a `time.Time` here), kept opaque. */
    | TBinary(nanos: int)

  /** A Go slice: `nil` is distinct from an empty, non-nil slice. */
  datatype Slice<T> = Nil | NonNil(elems: seq<T>)

  /** Number of bytes of the UTF-8 encoding of `c`. */
  function Utf8Width(c: char): (w: nat)
    ensures 1 <= w <= 4
  {
    if c as int < 0x80 then 1
    else if c as int < 0x800 then 2
    else if c as int < 0x1_0000 then 3
    else 4
  }

  /** Go's `len` of the string holding `s`: its length in UTF-8 bytes. */
  function ByteLen(s: string): (n: nat)
    ensures |s| <= n <= 4 * |s|
  {
    if s == [] then 0 else Utf8Width(s[0]) + ByteLen(s[1..])
  }

  /** Bytes a token occupies on the wire; binary-marshaled values have no fixed size here. */
  function TokenSize(t: Token): (r: nat)
    requires !t.TBinary?
  {
    match t
    case TString(s) => 4 + ByteLen(s)
    case TInt64(_) => 8
    case TBool(_) => 1
    case TLen(_) => 4
  }

  function WireSize(ts: seq<Token>): (r: nat)
    requires forall i :: 0 <= i < |ts| ==> !ts[i].TBinary?
  {
    if ts == [] then 0 else TokenSize(ts[0]) + WireSize(ts[1..])
  }

  lemma {:induction false} WireSizeAppend(a: seq<Token>, b: seq<Token>)
    requires forall i :: 0 <= i < |a| ==> !a[i].TBinary?
    requires forall i :: 0 <= i < |b| ==> !b[i].TBinary?
    ensures WireSize(a + b) == WireSize(a) + WireSize(b)
  {
    if a == [] {
      assert a + b == b;
    } else {
      assert (a + b)[0] == a[0] && (a + b)[1..] == a[1..] + b;
      WireSizeAppend(a[1..], b);
    }
  }

  // What one primitive read consumes from the front of the remaining tokens.

  function ReadString(ts: seq<Token>): (r: Option<(string, seq<Token>)>) {
    if ts != [] && ts[0].TString? then Some((ts[0].s, ts[1..])) else None
  }

  function ReadInt64(ts: seq<Token>): (r: Option<(int, seq<Token>)>) {
    if ts != [] && ts[0].TInt64? then Some((ts[0].i, ts[1..])) else None
  }

  function ReadBool(ts: seq<Token>): (r: Option<(bool, seq<Token>)>) {
    if ts != [] && ts[0].TBool? then Some((ts[0].b, ts[1..])) else None
  }

  /** A length is -1 (a nil slice) or a count; anything below -1 makes the decoder panic. */
  function ReadLen(ts: seq<Token>): (r: Option<(int, seq<Token>)>) {
    if ts != [] && ts[0].TLen? && ts[0].n >= -1 then Some((ts[0].n, ts[1..])) else None
  }

  function ReadBinary(ts: seq<Token>): (r: Option<(int, seq<Token>)>) {
    if ts != [] && ts[0].TBinary? then Some((ts[0].nanos, ts[1..])) else None
  }

  class Encoder {
    var data: seq<Token>

    constructor ()
      ensures data == []
    {
      data := [];
    }

    method String(s: string)
      modifies this
      ensures data == old(data) + [TString(s)]
    {
      data := data + [TString(s)];
    }

    method Int64(i: int)
      modifies this
      ensures data == old(data) + [TInt64(i)]
    {
      data := data + [TInt64(i)];
    }

    method Bool(b: bool)
      modifies this
      ensures data == old(data) + [TBool(b)]
    {
      data := data + [TBool(b)];
    }

    /** The encoder refuses (panics on) a length below -1. */
    method Len(n: int)
      requires n >= -1
      modifies this
      ensures data == old(data) + [TLen(n)]
    {
      data := data + [TLen(n)];
    }

    method EncodeBinaryMarshaler(nanos: int)
      modifies this
      ensures data == old(data) + [TBinary(nanos)]
    {
      data := data + [TBinary(nanos)];
    }
  }

  class Decoder {
    var rest: seq<Token>
    var failed: bool

    constructor (data: seq<Token>)
      ensures rest == data && !failed
    {
      rest := data;
      failed := false;
    }

    method String() returns (s: string)
      modifies this
      ensures if !old(failed) && ReadString(old(rest)).Some?
              then !failed && (s, rest) == ReadString(old(rest)).value
              else failed
    {
      var r := ReadString(rest);
      if !failed && r.Some? {
        s, rest := r.value.0, r.value.1;
      } else {
        s, failed := "", true;
      }
    }

    method Int64() returns (i: int)
      modifies this
      ensures if !old(failed) && ReadInt64(old(rest)).Some?
              then !failed && (i, rest) == ReadInt64(old(rest)).value
              else failed
    {
      var r := ReadInt64(rest);
      if !failed && r.Some? {
        i, rest := r.value.0, r.value.1;
      } else {
        i, failed := 0, true;
      }
    }

    method Bool() returns (b: bool)
      modifies this
      ensures if !old(failed) && ReadBool(old(rest)).Some?
              then !failed && (b, rest) == ReadBool(old(rest)).value
              else failed
    {
      var r := ReadBool(rest);
      if !failed && r.Some? {
        b, rest := r.value.0, r.value.1;
      } else {
        b, failed := false, true;
      }
    }

    method Len() returns (n: int)
      modifies this
      ensures if !old(failed) && ReadLen(old(rest)).Some?
              then !failed && (n, rest) == ReadLen(old(rest)).value
              else failed
      ensures n >= -1
    {
      var r := ReadLen(rest);
      if !failed && r.Some? {
        n, rest := r.value.0, r.value.1;
      } else {
        n, failed := -1, true;
      }
    }

    method DecodeBinaryUnmarshaler() returns (nanos: int)
      modifies this
      ensures if !old(failed) && ReadBinary(old(rest)).Some?
              then !failed && (nanos, rest) == ReadBinary(old(rest)).value
              else failed
    {
      var r := ReadBinary(rest);
      if !failed && r.Some? {
        nanos, rest := r.value.0, r.value.1;
      } else {
        nanos, failed := 0, true;
      }
    }
  }
}
