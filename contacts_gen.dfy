/**
 * The generated code of package `contacts`: the wire codec of `Contact`, the
 * nil-aware codec of `[]Contact`, the size function of `Contact`, the
 * request size of the `AddContact` client stub, and the server stub's method
 * dispatch.
 */
module ContactsGen {
  import opened Wrappers
  import opened Codegen

  /** A contact; Go's `Label` is `contactLabel` here, since `label` is a Dafny keyword. */
  datatype Contact = Contact(
    username: string,
    contactLabel: string,
    accountNum: string,
    routingNum: string,
    isExternal: bool)

  /** The zero `Contact`, which `make([]Contact, n)` fills the slice with. */
  const ZeroContact := Contact("", "", "", "", false)

  /** What `Contact.WeaverMarshal` writes, in order. */
  function EncodeContact(x: Contact): (r: seq<Token>) {
    [TString(x.username), TString(x.contactLabel), TString(x.accountNum), TString(x.routingNum), TBool(x.isExternal)]
  }

  /** What `Contact.WeaverUnmarshal` reads, in order; `None` where the decoder would panic. */
  function DecodeContact(ts: seq<Token>): (r: Option<(Contact, seq<Token>)>) {
    match ReadString(ts)
    case None => None
    case Some((username, ts1)) =>
      match ReadString(ts1)
      case None => None
      case Some((contactLabel, ts2)) =>
        match ReadString(ts2)
        case None => None
        case Some((accountNum, ts3)) =>
          match ReadString(ts3)
          case None => None
          case Some((routingNum, ts4)) =>
            match ReadBool(ts4)
            case None => None
            case Some((isExternal, ts5)) => Some((Contact(username, contactLabel, accountNum, routingNum, isExternal), ts5))
  }

  lemma ContactRoundTrip(x: Contact, rest: seq<Token>)
    ensures DecodeContact(EncodeContact(x) + rest) == Some((x, rest))
  {
    var ts := EncodeContact(x) + rest;
    assert ReadString(ts) == Some((x.username, ts[1..]));
    assert ReadString(ts[1..]) == Some((x.contactLabel, ts[2..]));
    assert ReadString(ts[2..]) == Some((x.accountNum, ts[3..]));
    assert ReadString(ts[3..]) == Some((x.routingNum, ts[4..]));
    assert ReadBool(ts[4..]) == Some((x.isExternal, ts[5..]));
    assert ts[5..] == rest;
  }

  method MarshalContact(x: Contact, enc: Encoder)
    modifies enc
    ensures enc.data == old(enc.data) + EncodeContact(x)
  {
    enc.String(x.username);
    enc.String(x.contactLabel);
    enc.String(x.accountNum);
    enc.String(x.routingNum);
    enc.Bool(x.isExternal);
  }

  method UnmarshalContact(dec: Decoder) returns (x: Contact)
    modifies dec
    ensures if !old(dec.failed) && DecodeContact(old(dec.rest)).Some?
            then !dec.failed && (x, dec.rest) == DecodeContact(old(dec.rest)).value
            else dec.failed
  {
    var username := dec.String();
    var contactLabel := dec.String();
    var accountNum := dec.String();
    var routingNum := dec.String();
    var isExternal := dec.Bool();
    x := Contact(username, contactLabel, accountNum, routingNum, isExternal);
  }

  /** The elements of a slice, one after the other. */
  function EncodeContacts(cs: seq<Contact>): (r: seq<Token>) {
    if cs == [] then [] else EncodeContacts(cs[..|cs| - 1]) + EncodeContact(cs[|cs| - 1])
  }

  /** Reads `n` contacts in a row. */
  function DecodeContacts(ts: seq<Token>, n: nat): (r: Option<(seq<Contact>, seq<Token>)>) {
    if n == 0 then Some(([], ts))
    else
      match DecodeContacts(ts, n - 1)
      case None => None
      case Some((cs, ts1)) =>
        match DecodeContact(ts1)
        case None => None
        case Some((c, ts2)) => Some((cs + [c], ts2))
  }

  /** `serviceweaver_enc_slice_Contact`: `Len(-1)` for nil, else the length and the elements. */
  function EncodeSlice(s: Slice<Contact>): (r: seq<Token>) {
    match s
    case Nil => [TLen(-1)]
    case NonNil(cs) => [TLen(|cs|)] + EncodeContacts(cs)
  }

  /** `serviceweaver_dec_slice_Contact`: a length of -1 is nil, any other length that many elements. */
  function DecodeSlice(ts: seq<Token>): (r: Option<(Slice<Contact>, seq<Token>)>) {
    match ReadLen(ts)
    case None => None
    case Some((n, ts1)) =>
      if n == -1 then Some((Nil, ts1))
      else
        match DecodeContacts(ts1, n)
        case None => None
        case Some((cs, ts2)) => Some((NonNil(cs), ts2))
  }

  lemma {:induction false} ContactsRoundTrip(cs: seq<Contact>, rest: seq<Token>)
    ensures DecodeContacts(EncodeContacts(cs) + rest, |cs|) == Some((cs, rest))
  {
    if cs != [] {
      var n := |cs| - 1;
      var last := cs[n];
      var ts := EncodeContacts(cs) + rest;
      assert ts == EncodeContacts(cs[..n]) + (EncodeContact(last) + rest);
      ContactsRoundTrip(cs[..n], EncodeContact(last) + rest);
      assert DecodeContacts(ts, n) == Some((cs[..n], EncodeContact(last) + rest));
      ContactRoundTrip(last, rest);
      assert cs[..n] + [last] == cs;
      assert DecodeContacts(ts, |cs|) == Some((cs[..n] + [last], rest));
    } else {
      assert EncodeContacts(cs) + rest == rest;
    }
  }

  /**
   * A slice reads back as written: nil as nil, and a non-nil slice (the
   * empty one included) with the same length and the same elements in order.
   */
  lemma SliceRoundTrip(s: Slice<Contact>, rest: seq<Token>)
    ensures DecodeSlice(EncodeSlice(s) + rest) == Some((s, rest))
  {
    match s
    case Nil =>
      assert (EncodeSlice(s) + rest)[1..] == rest;
    case NonNil(cs) =>
      assert (EncodeSlice(s) + rest)[1..] == EncodeContacts(cs) + rest;
      ContactsRoundTrip(cs, rest);
  }

  /** Nil and the empty slice have different encodings, so they stay distinct. */
  lemma NilIsNotEmpty()
    ensures EncodeSlice(Nil) != EncodeSlice(NonNil([]))
  {
    assert EncodeSlice(Nil)[0] == TLen(-1);
  }

  method MarshalSlice(enc: Encoder, arg: Slice<Contact>)
    modifies enc
    ensures enc.data == old(enc.data) + EncodeSlice(arg)
  {
    if arg.Nil? {
      enc.Len(-1);
      return;
    }
    var cs := arg.elems;
    enc.Len(|cs|);
    for i := 0 to |cs|
      invariant enc.data == old(enc.data) + [TLen(|cs|)] + EncodeContacts(cs[..i])
    {
      MarshalContact(cs[i], enc);
      assert cs[..i + 1][..i] == cs[..i];
    }
    assert cs[..|cs|] == cs;
  }

  /**
   * Reads the length, then fills a fresh array of that many contacts in
   * index order; after `i` rounds the array's first `i` cells hold the first
   * `i` contacts on the wire.
   */
  method UnmarshalSlice(dec: Decoder) returns (r: Slice<Contact>)
    modifies dec
    ensures if !old(dec.failed) && DecodeSlice(old(dec.rest)).Some?
            then !dec.failed && (r, dec.rest) == DecodeSlice(old(dec.rest)).value
            else dec.failed
  {
    var n := dec.Len();
    if n == -1 {
      return Nil;
    }
    ghost var start := dec.rest;
    var res := new Contact[n](_ => ZeroContact);
    for i := 0 to n
      invariant dec.failed <==> old(dec.failed) || ReadLen(old(dec.rest)).None? || DecodeContacts(start, i).None?
      invariant !dec.failed ==> DecodeContacts(start, i) == Some((res[..i], dec.rest))
    {
      ghost var before := res[..i];
      var c := UnmarshalContact(dec);
      res[i] := c;
      assert res[..i + 1] == before + [c];
    }
    r := NonNil(res[..]);
    assert res[..] == res[..n];
  }

  /**
   * `serviceweaver_size_Contact`: four length-prefixed strings and a bool,
   * the number of bytes `Contact.WeaverMarshal` writes.
   */
  method SizeContact(x: Contact) returns (size: int)
    ensures size == 17 + ByteLen(x.username) + ByteLen(x.contactLabel) + ByteLen(x.accountNum) + ByteLen(x.routingNum)
    ensures size == WireSize(EncodeContact(x))
  {
    size := 0;
    size := size + 0;
    size := size + (4 + ByteLen(x.username));
    size := size + (4 + ByteLen(x.contactLabel));
    size := size + (4 + ByteLen(x.accountNum));
    size := size + (4 + ByteLen(x.routingNum));
    size := size + 1;
    ContactWireSize(x);
  }

  lemma ContactWireSize(x: Contact)
    ensures WireSize(EncodeContact(x))
         == 17 + ByteLen(x.username) + ByteLen(x.contactLabel) + ByteLen(x.accountNum) + ByteLen(x.routingNum)
  {
    var e := EncodeContact(x);
    assert WireSize(e[5..]) == 0;
    assert WireSize(e[4..]) == 1;
    assert WireSize(e[3..]) == 4 + ByteLen(x.routingNum) + 1;
    assert WireSize(e[2..]) == 4 + ByteLen(x.accountNum) + WireSize(e[3..]);
    assert WireSize(e[1..]) == 4 + ByteLen(x.contactLabel) + WireSize(e[2..]);
  }

  /**
   * The buffer the `AddContact` client stub preallocates: the length-prefixed
   * user name followed by the size of the contact, which is exactly the
   * number of bytes its encoded arguments occupy.
   */
  method AddContactRequestSize(username: string, contact: Contact) returns (size: int)
    ensures size == WireSize([TString(username)] + EncodeContact(contact))
  {
    size := 0;
    size := size + (4 + ByteLen(username));
    var s := SizeContact(contact);
    size := size + s;
    WireSizeAppend([TString(username)], EncodeContact(contact));
  }

  /** The server stub's handlers. */
  datatype Handler = GetContacts | AddContact

  /** `GetStubFn`: the handler of a method name, nil for any other name. */
  function GetStubFn(methodName: string): (r: Option<Handler>)
    ensures r == Some(GetContacts) <==> methodName == "GetContacts"
    ensures r == Some(AddContact) <==> methodName == "AddContact"
    ensures r.None? <==> methodName != "GetContacts" && methodName != "AddContact"
  {
    if methodName == "GetContacts" then Some(GetContacts)
    else if methodName == "AddContact" then Some(AddContact)
    else None
  }
}
