/**
 * The ledger records of package `model` and their generated wire codecs
 * (`WeaverMarshal` / `WeaverUnmarshal`). The timestamp is a `time.Time`,
 * represented by its nanoseconds and carried on the wire as one opaque
 * binary-marshaled token.
 */
module Model {
  import opened Wrappers
  import opened Codegen

  datatype Transaction = Transaction(
    fromAccountNum: string,
    fromRoutingNum: string,
    toAccountNum: string,
    toRoutingNum: string,
    amount: int,
    timestamp: int)

  /** A ledger row: the transaction and the id the store assigned to it. */
  datatype TransactionWithID = TransactionWithID(transaction: Transaction, transactionID: int)

  /** What `Transaction.WeaverMarshal` writes, in order. */
  function EncodeTransaction(x: Transaction): (r: seq<Token>) {
    [TString(x.fromAccountNum), TString(x.fromRoutingNum),
     TString(x.toAccountNum), TString(x.toRoutingNum),
     TInt64(x.amount), TBinary(x.timestamp)]
  }

  /** What `Transaction.WeaverUnmarshal` reads, in order; `None` where the decoder would panic. */
  function DecodeTransaction(ts: seq<Token>): (r: Option<(Transaction, seq<Token>)>) {
    match ReadString(ts)
    case None => None
    case Some((fromAcct, ts1)) =>
      match ReadString(ts1)
      case None => None
      case Some((fromRoute, ts2)) =>
        match ReadString(ts2)
        case None => None
        case Some((toAcct, ts3)) =>
          match ReadString(ts3)
          case None => None
          case Some((toRoute, ts4)) =>
            match ReadInt64(ts4)
            case None => None
            case Some((amount, ts5)) =>
              match ReadBinary(ts5)
              case None => None
              case Some((nanos, ts6)) =>
                Some((Transaction(fromAcct, fromRoute, toAcct, toRoute, amount, nanos), ts6))
  }

  function EncodeTransactionWithID(x: TransactionWithID): (r: seq<Token>) {
    EncodeTransaction(x.transaction) + [TInt64(x.transactionID)]
  }

  function DecodeTransactionWithID(ts: seq<Token>): (r: Option<(TransactionWithID, seq<Token>)>) {
    match DecodeTransaction(ts)
    case None => None
    case Some((t, ts1)) =>
      match ReadInt64(ts1)
      case None => None
      case Some((id, ts2)) => Some((TransactionWithID(t, id), ts2))
  }

  /** Unmarshal reads back exactly what marshal wrote, leaving whatever followed it. */
  lemma TransactionRoundTrip(x: Transaction, rest: seq<Token>)
    ensures DecodeTransaction(EncodeTransaction(x) + rest) == Some((x, rest))
  {
    var ts := EncodeTransaction(x) + rest;
    assert ts[1..] == EncodeTransaction(x)[1..] + rest;
    assert ts[6..] == rest;
  }

  lemma TransactionWithIDRoundTrip(x: TransactionWithID, rest: seq<Token>)
    ensures DecodeTransactionWithID(EncodeTransactionWithID(x) + rest) == Some((x, rest))
  {
    assert EncodeTransactionWithID(x) + rest == EncodeTransaction(x.transaction) + ([TInt64(x.transactionID)] + rest);
    TransactionRoundTrip(x.transaction, [TInt64(x.transactionID)] + rest);
  }

  /** The embedded `Transaction` comes first on the wire, the id last. */
  lemma TransactionWithIDLayout(x: TransactionWithID)
    ensures |EncodeTransactionWithID(x)| == 7
    ensures EncodeTransactionWithID(x)[..6] == EncodeTransaction(x.transaction)
    ensures EncodeTransactionWithID(x)[6] == TInt64(x.transactionID)
  {
  }

  method MarshalTransaction(x: Transaction, enc: Encoder)
    modifies enc
    ensures enc.data == old(enc.data) + EncodeTransaction(x)
  {
    enc.String(x.fromAccountNum);
    enc.String(x.fromRoutingNum);
    enc.String(x.toAccountNum);
    enc.String(x.toRoutingNum);
    enc.Int64(x.amount);
    enc.EncodeBinaryMarshaler(x.timestamp);
  }

  method UnmarshalTransaction(dec: Decoder) returns (x: Transaction)
    modifies dec
    ensures if !old(dec.failed) && DecodeTransaction(old(dec.rest)).Some?
            then !dec.failed && (x, dec.rest) == DecodeTransaction(old(dec.rest)).value
            else dec.failed
  {
    var fromAcct := dec.String();
    var fromRoute := dec.String();
    var toAcct := dec.String();
    var toRoute := dec.String();
    var amount := dec.Int64();
    var nanos := dec.DecodeBinaryUnmarshaler();
    x := Transaction(fromAcct, fromRoute, toAcct, toRoute, amount, nanos);
  }

  method MarshalTransactionWithID(x: TransactionWithID, enc: Encoder)
    modifies enc
    ensures enc.data == old(enc.data) + EncodeTransactionWithID(x)
  {
    MarshalTransaction(x.transaction, enc);
    enc.Int64(x.transactionID);
  }

  method UnmarshalTransactionWithID(dec: Decoder) returns (x: TransactionWithID)
    modifies dec
    ensures if !old(dec.failed) && DecodeTransactionWithID(old(dec.rest)).Some?
            then !dec.failed && (x, dec.rest) == DecodeTransactionWithID(old(dec.rest)).value
            else dec.failed
  {
    var t := UnmarshalTransaction(dec);
    var id := dec.Int64();
    x := TransactionWithID(t, id);
  }
}
