/** The arbitration queue's byte formats: the journal record and the two signed messages. */
module ArbiterCodec {
  import opened Basics
  import opened Bytes

  const ID_LEN := 32
  const TICKET_LEN := 16
  const KID_LEN := 16
  const MAX_SUBJECT := 255
  /** tag, action, id, ticket and subject length */
  const HEAD := 5 + 1 + ID_LEN + TICKET_LEN + 1
  const U64 := 0x1_0000_0000_0000_0000

  /** "TBAR2", "TBAV2" and "TBAH2" in ASCII. */
  const RECORD_TAG: ByteString := [84, 66, 65, 82, 50]
  const DECISION_TAG: ByteString := [84, 66, 65, 86, 50]
  const PRESENCE_TAG: ByteString := [84, 66, 65, 72, 50]

  /** `expiry` is in Unix seconds, 0 when there is none. */
  datatype Record = Record(act: Byte, id: ByteString, ticket: ByteString, subject: ByteString, kid: ByteString,
                           verdict: Byte, expiry: nat)
  {
    predicate WellSized() {
      |id| == ID_LEN && |ticket| == TICKET_LEN && |subject| <= MAX_SUBJECT && |kid| == KID_LEN && expiry < U64
    }
  }

  /** The clear record behind a leaf; a longer subject is truncated. */
  function EncodeRecord(r: Record): ByteString {
    var subject := if |r.subject| > MAX_SUBJECT then r.subject[..MAX_SUBJECT] else r.subject;
    RECORD_TAG + [r.act] + r.id + r.ticket + [|subject|] + subject + r.kid + [r.verdict] + BigEndian(r.expiry, 8)
  }

  /** Strict on the length; the tag is the caller's business. */
  function ParseRecord(rec: ByteString): Option<Record> {
    if |rec| < HEAD then None else
    var sl := rec[HEAD - 1];
    if |rec| != HEAD + sl + KID_LEN + 1 + 8 then None else
    Some(Record(rec[5], rec[6..38], rec[38..54], rec[HEAD..HEAD + sl], rec[HEAD + sl..HEAD + sl + KID_LEN],
                rec[HEAD + sl + KID_LEN], FromBigEndian(rec[HEAD + sl + KID_LEN + 1..])))
  }

  /** Parsing undoes encoding, for every combination of fields. */
  lemma ParseEncode(r: Record)
    requires r.WellSized()
    ensures ParseRecord(EncodeRecord(r)) == Some(r)
  {
    var sl := |r.subject|;
    var head := RECORD_TAG + [r.act];
    var a := head + r.id;
    var b := a + r.ticket;
    var c := b + [sl];
    var d := c + r.subject;
    var e := d + r.kid;
    var f := e + [r.verdict];
    var rec := f + BigEndian(r.expiry, 8);
    assert EncodeRecord(r) == rec;
    assert rec[HEAD - 1] == sl && rec[5] == r.act && rec[HEAD + sl + KID_LEN] == r.verdict;
    assert rec[6..38] == r.id && rec[38..54] == r.ticket;
    assert rec[HEAD..HEAD + sl] == r.subject && rec[HEAD + sl..HEAD + sl + KID_LEN] == r.kid;
    assert rec[HEAD + sl + KID_LEN + 1..] == BigEndian(r.expiry, 8);
    Widths();
    BigEndianRoundTrip(r.expiry, 8);
  }

  /** The parser accepts exactly the strings whose length fits the subject length they announce. */
  lemma ParseAccepts(rec: ByteString)
    ensures ParseRecord(rec).Some? <==> |rec| >= HEAD && |rec| == HEAD + rec[HEAD - 1] + KID_LEN + 1 + 8
    ensures ParseRecord(rec).Some? ==> ParseRecord(rec).value.WellSized()
  {
    if ParseRecord(rec).Some? {
      Widths();
      FromBigEndianBound(rec[HEAD + rec[HEAD - 1] + KID_LEN + 1..]);
    }
  }

  lemma {:induction false} FromBigEndianBound(s: ByteString)
    ensures FromBigEndian(s) < Pow256(|s|)
  {
    if s != [] { FromBigEndianBound(s[..|s| - 1]); }
  }

  function CellPrefix(cell: ByteString): ByteString { BigEndian(|cell|, 2) + cell }

  function DecisionMessage(cell: ByteString, id: ByteString, ticket: ByteString, verdict: Byte, expiry: nat)
    : ByteString
  {
    DECISION_TAG + CellPrefix(cell) + [verdict] + id + ticket + BigEndian(expiry, 8)
  }

  function PresenceMessage(cell: ByteString, at: nat): ByteString {
    PRESENCE_TAG + CellPrefix(cell) + BigEndian(at, 8)
  }

  /**
    A signed decision speaks about one cell, one id, one ticket, one verdict and one expiry second.
    The cell may be of any length: the length of the message already fixes it, so the 16-bit length
    field wrapping around does no harm.
  */
  lemma DecisionMessageInjective(
      cell1: ByteString, id1: ByteString, ticket1: ByteString, v1: Byte, exp1: nat,
      cell2: ByteString, id2: ByteString, ticket2: ByteString, v2: Byte, exp2: nat)
    requires |id1| == |id2| == ID_LEN && |ticket1| == |ticket2| == TICKET_LEN && exp1 < U64 && exp2 < U64
    requires DecisionMessage(cell1, id1, ticket1, v1, exp1) == DecisionMessage(cell2, id2, ticket2, v2, exp2)
    ensures cell1 == cell2 && id1 == id2 && ticket1 == ticket2 && v1 == v2 && exp1 == exp2
  {
    var a1, a2 := DECISION_TAG + CellPrefix(cell1), DECISION_TAG + CellPrefix(cell2);
    var b1, b2 := a1 + [v1], a2 + [v2];
    var c1, c2 := b1 + id1, b2 + id2;
    var d1, d2 := c1 + ticket1, c2 + ticket2;
    SplitEqual(d1, BigEndian(exp1, 8), d2, BigEndian(exp2, 8));
    SplitEqual(c1, ticket1, c2, ticket2);
    SplitEqual(b1, id1, b2, id2);
    SplitEqual(a1, [v1], a2, [v2]);
    SplitEqual(DECISION_TAG, CellPrefix(cell1), DECISION_TAG, CellPrefix(cell2));
    SplitEqual(BigEndian(|cell1|, 2), cell1, BigEndian(|cell2|, 2), cell2);
    Widths();
    BigEndianInjective(exp1, exp2, 8);
  }

  /** A presence heartbeat never doubles as a decision. */
  lemma MessagesDisjoint(cell1: ByteString, at: nat, cell2: ByteString, id: ByteString, ticket: ByteString, v: Byte,
                         exp: nat)
    ensures PresenceMessage(cell1, at) != DecisionMessage(cell2, id, ticket, v, exp)
  {
    assert PresenceMessage(cell1, at)[3] == 72;
    assert DecisionMessage(cell2, id, ticket, v, exp)[3] == 86;
  }
}
