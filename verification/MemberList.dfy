/** The message that tells a newly admitted client who is connected. */
module MemberList {
  import opened Bytes
  import opened ClientTable

  const ACCESS_MEMBER: byte := 6
  const CONNECTED_MEMBER_INFO: byte := 7
  const RECORD_HEADER := 14
  const INT_LIMIT := 0x8000_0000

  /** A non-negative 32-bit integer as memcpy copies it on a little-endian machine. */
  function Le32(n: nat): (b: seq<byte>)
    requires n < INT_LIMIT
    ensures |b| == 4
  {
    [(n % 256) as byte, (n / 256 % 256) as byte, (n / 65536 % 256) as byte, (n / 16777216) as byte]
  }

  function FromLe32(b: seq<byte>): nat
    requires |b| == 4
  {
    b[0] as nat + 256 * b[1] as nat + 65536 * b[2] as nat + 16777216 * b[3] as nat
  }

  lemma Le32RoundTrip(n: nat)
    requires n < INT_LIMIT
    ensures FromLe32(Le32(n)) == n
  {
    assert n / 256 / 256 == n / 65536 && n / 65536 / 256 == n / 16777216;
  }

  function FromBool(b: bool): byte {
    if b then 1 else 0
  }

  /** String lengths fit the source's int. */
  predicate Fits(c: Client) {
    |c.mcode| < INT_LIMIT && |c.custom| < INT_LIMIT && |c.name| < INT_LIMIT
  }

  function Header(c: Client): (b: seq<byte>)
    requires Fits(c)
    ensures |b| == RECORD_HEADER
  {
    [FromBool(c.authority), FromBool(c.chief)] + Le32(|c.mcode|) + Le32(|c.custom|) + Le32(|c.name|)
  }

  function Record(c: Client): seq<byte>
    requires Fits(c)
  {
    Header(c) + c.mcode + c.custom + c.name
  }

  predicate AllFit(t: seq<Client>) {
    forall i :: 0 <= i < |t| ==> Fits(t[i])
  }

  function Records(t: seq<Client>): seq<byte>
    requires AllFit(t)
  {
    if t == [] then []
    else Records(t[..|t| - 1]) + Piece(t[|t| - 1])
  }

  /** What a table entry adds to the message. */
  function Piece(c: Client): (b: seq<byte>)
    requires Fits(c)
    ensures |b| == if c.Admitted() then RECORD_HEADER + |c.mcode| + |c.custom| + |c.name| else 0
  {
    if c.Admitted() then Record(c) else []
  }

  lemma RecordsNext(t: seq<Client>, i: nat)
    requires AllFit(t) && i < |t|
    ensures Records(t[..i + 1]) == Records(t[..i]) + Piece(t[i])
  {
    assert t[..i + 1][..i] == t[..i];
  }

  /** The message telling everybody who has just been admitted. */
  function Alert(c: Client): seq<byte>
    requires Fits(c)
  {
    [ACCESS_MEMBER] + Record(c)
  }

  /** What the source allocates and sends. */
  function Allocation(t: seq<Client>): nat {
    1 + Texts(t) + RECORD_HEADER * |t|
  }

  /** The bytes of the strings of the admitted clients. */
  function Texts(t: seq<Client>): nat {
    if t == [] then 0
    else
      var c := t[|t| - 1];
      Texts(t[..|t| - 1]) + if c.Admitted() then |c.mcode| + |c.custom| + |c.name| else 0
  }

  function Waiting(t: seq<Client>): nat {
    if t == [] then 0 else Waiting(t[..|t| - 1]) + if t[|t| - 1].Admitted() then 0 else 1
  }

  lemma {:induction false} RecordsLength(t: seq<Client>)
    requires AllFit(t)
    ensures |Records(t)| == Texts(t) + RECORD_HEADER * (|t| - Waiting(t)) && Waiting(t) <= |t|
  {
    if t != [] {
      RecordsLength(t[..|t| - 1]);
    }
  }

  /** Entries not yet admitted have the empty mcode, which only one entry can have. */
  lemma {:induction false} AtMostOneWaits(t: seq<Client>)
    requires IsTable(t) && forall c :: c in t && !c.Admitted() ==> c.mcode == []
    ensures Waiting(t) <= 1
    ensures Waiting(t) == 1 ==> HasMcode(t, [])
  {
    if t != [] {
      var n := |t| - 1;
      AtMostOneWaits(t[..n]);
      if HasMcode(t[..n], []) {
        var i :| 0 <= i < n && t[..n][i].mcode == [];
        assert t[i].mcode == [];
      }
      assert t[n] in t;
      LessIsIrreflexive([]);
    }
  }

  method WriteAt(a: array<byte>, at: nat, bytes: seq<byte>)
    requires at + |bytes| <= a.Length
    modifies a
    ensures a[..at + |bytes|] == old(a[..at]) + bytes
  {
    forall i | 0 <= i < |bytes| {
      a[at + i] := bytes[i];
    }
  }

  method WriteRecord(a: array<byte>, at: nat, c: Client)
    requires Fits(c) && at + |Record(c)| <= a.Length
    modifies a
    ensures a[..at + |Record(c)|] == old(a[..at]) + Record(c)
  {
    WriteAt(a, at, Header(c));
    WriteTexts(a, at + RECORD_HEADER, c.mcode, c.custom, c.name);
    Assoc(old(a[..at]), Header(c), c.mcode + c.custom + c.name);
    assert Record(c) == Header(c) + (c.mcode + c.custom + c.name);
  }

  method WriteTexts(a: array<byte>, at: nat, mcode: Str, custom: Str, name: Str)
    requires at + |mcode| + |custom| + |name| <= a.Length
    modifies a
    ensures a[..at + |mcode| + |custom| + |name|] == old(a[..at]) + (mcode + custom + name)
  {
    WriteAt(a, at, mcode);
    WriteAt(a, at + |mcode|, custom);
    WriteAt(a, at + |mcode| + |custom|, name);
  }

  method CountTexts(t: seq<Client>) returns (mcodeSizes: nat, customSizes: nat, nameSizes: nat)
    ensures mcodeSizes + customSizes + nameSizes == Texts(t)
  {
    mcodeSizes, customSizes, nameSizes := 0, 0, 0;
    for i := 0 to |t|
      invariant mcodeSizes + customSizes + nameSizes == Texts(t[..i])
    {
      assert t[..i + 1][..i] == t[..i];
      if t[i].Admitted() {
        mcodeSizes := mcodeSizes + |t[i].mcode|;
        customSizes := customSizes + |t[i].custom|;
        nameSizes := nameSizes + |t[i].name|;
      }
    }
    assert t[..|t|] == t;
  }

  /**
   The buffer is exactly as long as the source allocates, the written part is the records of the
   admitted clients in table order, and nothing is written outside.
   */
  method Build(t: seq<Client>) returns (connectedList: array<byte>, written: nat)
    requires AllFit(t)
    ensures fresh(connectedList) && connectedList.Length == Allocation(t)
    ensures written <= connectedList.Length && connectedList[..written] == [CONNECTED_MEMBER_INFO] + Records(t)
    ensures connectedList.Length - written == RECORD_HEADER * Waiting(t)
  {
    var mcodeSizes, customSizes, nameSizes := CountTexts(t);
    connectedList := new byte[1 + mcodeSizes + customSizes + nameSizes + RECORD_HEADER * |t|];
    written := WriteRecords(connectedList, t);
    RecordsLength(t);
  }

  method WriteRecords(a: array<byte>, t: seq<Client>) returns (written: nat)
    requires AllFit(t) && a.Length == Allocation(t)
    modifies a
    ensures written <= a.Length && a[..written] == [CONNECTED_MEMBER_INFO] + Records(t)
  {
    a[0] := CONNECTED_MEMBER_INFO;
    written := 1;
    assert a[..1] == [CONNECTED_MEMBER_INFO] + Records(t[..0]);
    for i := 0 to |t|
      invariant written <= a.Length && a[..written] == [CONNECTED_MEMBER_INFO] + Records(t[..i])
    {
      NextPiece(t, i);
      written := WriteIfAdmitted(a, written, t[i]);
    }
    assert t[..|t|] == t;
  }

  lemma NextPiece(t: seq<Client>, i: nat)
    requires AllFit(t) && i < |t|
    ensures [CONNECTED_MEMBER_INFO] + Records(t[..i]) + Piece(t[i]) == [CONNECTED_MEMBER_INFO] + Records(t[..i + 1])
    ensures |[CONNECTED_MEMBER_INFO] + Records(t[..i])| + |Piece(t[i])| <= Allocation(t)
  {
    RecordFits(t, i);
    RecordsNext(t, i);
    Assoc([CONNECTED_MEMBER_INFO], Records(t[..i]), Piece(t[i]));
  }

  method WriteIfAdmitted(a: array<byte>, at: nat, c: Client) returns (end: nat)
    requires Fits(c) && at + |Piece(c)| <= a.Length
    modifies a
    ensures end == at + |Piece(c)| && a[..end] == old(a[..at]) + Piece(c)
  {
    end := at;
    if c.Admitted() {
      WriteRecord(a, at, c);
      end := at + RECORD_HEADER + |c.mcode| + |c.custom| + |c.name|;
    }
  }

  /** The record of an admitted client still fits behind those written before it. */
  lemma RecordFits(t: seq<Client>, i: nat)
    requires AllFit(t) && i < |t|
    ensures 1 + |Records(t[..i])| + |Piece(t[i])| <= Allocation(t)
  {
    RecordsNext(t, i);
    RecordsLength(t[..i + 1]);
    TextsGrow(t, i + 1);
  }

  lemma {:induction false} TextsGrow(t: seq<Client>, i: nat)
    requires i <= |t|
    ensures Texts(t[..i]) <= Texts(t)
  {
    if i < |t| {
      TextsGrow(t[..|t| - 1], i);
      assert t[..|t| - 1][..i] == t[..i];
    } else {
      assert t[..i] == t;
    }
  }

  // ----- Reading it back -----

  datatype Member = Member(authority: bool, chief: bool, mcode: Str, custom: Str, name: Str)

  function MemberOf(c: Client): Member {
    Member(c.authority, c.chief, c.mcode, c.custom, c.name)
  }

  function Members(t: seq<Client>): seq<Member> {
    if t == [] then []
    else Members(t[..|t| - 1]) + MemberIf(t[|t| - 1])
  }

  function MemberIf(c: Client): seq<Member> {
    if c.Admitted() then [MemberOf(c)] else []
  }

  /** The first record of b and the length it takes. */
  function ParseRecord(b: seq<byte>): Option<(Member, nat)> {
    if |b| < RECORD_HEADER then None
    else
      var m, c, n := FromLe32(b[2..6]), FromLe32(b[6..10]), FromLe32(b[10..14]);
      if |b| < RECORD_HEADER + m + c + n then None
      else
        var text := b[RECORD_HEADER..];
        var member := Member(b[0] != 0, b[1] != 0, text[..m], text[m..m + c], text[m + c..m + c + n]);
        Some((member, RECORD_HEADER + m + c + n))
  }

  function ParseAll(b: seq<byte>): Option<seq<Member>>
    decreases |b|
  {
    if b == [] then Some([])
    else
      match ParseRecord(b)
      case None => None
      case Some((member, size)) =>
        if size == 0 || size > |b| then None
        else
          var rest := ParseAll(b[size..]);
          if rest == None then None else Some([member] + rest.value)
  }

  function Parse(b: seq<byte>): Option<seq<Member>> {
    if b == [] || b[0] != CONNECTED_MEMBER_INFO then None else ParseAll(b[1..])
  }

  lemma ParseOneRecord(c: Client, rest: seq<byte>)
    requires Fits(c)
    ensures ParseRecord(Record(c) + rest) == Some((MemberOf(c), |Record(c)|))
  {
    var b := Record(c) + rest;
    HeaderRead(c);
    assert b[..RECORD_HEADER] == Header(c);
    assert b[2..6] == b[..RECORD_HEADER][2..6] && b[6..10] == b[..RECORD_HEADER][6..10];
    assert b[10..14] == b[..RECORD_HEADER][10..14];
    assert b[RECORD_HEADER..] == c.mcode + c.custom + c.name + rest;
    TextsRead(c.mcode, c.custom, c.name, rest);
  }

  lemma HeaderRead(c: Client)
    requires Fits(c)
    ensures var h := Header(c);
            FromLe32(h[2..6]) == |c.mcode| && FromLe32(h[6..10]) == |c.custom| && FromLe32(h[10..14]) == |c.name|
            && (h[0] != 0) == c.authority && (h[1] != 0) == c.chief
  {
    var h := Header(c);
    assert h[2..6] == Le32(|c.mcode|) && h[6..10] == Le32(|c.custom|) && h[10..14] == Le32(|c.name|);
    Le32RoundTrip(|c.mcode|);
    Le32RoundTrip(|c.custom|);
    Le32RoundTrip(|c.name|);
  }

  lemma TextsRead(a: Str, b: Str, c: Str, rest: seq<byte>)
    ensures var text := a + b + c + rest;
            text[..|a|] == a && text[|a|..|a| + |b|] == b && text[|a| + |b|..|a| + |b| + |c|] == c
  {
  }

  lemma ParseCons(c: Client, rest: seq<byte>, tail: seq<Member>)
    requires Fits(c) && ParseAll(rest) == Some(tail)
    ensures ParseAll(Record(c) + rest) == Some([MemberOf(c)] + tail)
  {
    ParseOneRecord(c, rest);
    assert (Record(c) + rest)[|Record(c)|..] == rest;
  }

  lemma ParsePiece(c: Client, rest: seq<byte>, tail: seq<Member>)
    requires Fits(c) && ParseAll(rest) == Some(tail)
    ensures ParseAll(Piece(c) + rest) == Some(MemberIf(c) + tail)
  {
    if c.Admitted() {
      ParseCons(c, rest, tail);
    } else {
      assert [] + rest == rest && [] + tail == tail;
    }
  }

  lemma {:induction false} ParseRecords(t: seq<Client>, rest: seq<byte>, tail: seq<Member>)
    requires AllFit(t) && ParseAll(rest) == Some(tail)
    ensures ParseAll(Records(t) + rest) == Some(Members(t) + tail)
    decreases |t|
  {
    if t == [] {
      assert Records(t) + rest == rest && Members(t) + tail == tail;
    } else {
      var init, c := t[..|t| - 1], t[|t| - 1];
      ParsePiece(c, rest, tail);
      ParseRecords(init, Piece(c) + rest, MemberIf(c) + tail);
      Assoc(Records(init), Piece(c), rest);
      Assoc(Members(init), MemberIf(c), tail);
    }
  }

  lemma Assoc<T>(a: seq<T>, b: seq<T>, c: seq<T>)
    ensures (a + b) + c == a + (b + c)
  {
  }

  /** The alert reads back as the client it was made from. */
  lemma AlertRoundTrip(c: Client)
    requires Fits(c)
    ensures Alert(c)[0] == ACCESS_MEMBER && ParseAll(Alert(c)[1..]) == Some([MemberOf(c)])
  {
    ParseCons(c, [], []);
    assert Alert(c)[1..] == Record(c) + [];
    assert [MemberOf(c)] + [] == [MemberOf(c)];
  }

  /**
   For any client table the written part reads back as exactly the admitted clients, in mcode order,
   and the part of the buffer behind it is 0 or 14 bytes.
   */
  lemma MemberListRoundTrip(t: seq<Client>)
    requires AllFit(t) && IsTable(t) && forall c :: c in t && !c.Admitted() ==> c.mcode == []
    ensures Parse([CONNECTED_MEMBER_INFO] + Records(t)) == Some(Members(t))
    ensures MembersSorted(Members(t))
    ensures forall c :: c in t && c.Admitted() ==> MemberOf(c) in Members(t)
    ensures var tail := Allocation(t) - (1 + |Records(t)|); tail == 0 || tail == RECORD_HEADER
  {
    ParseRecords(t, [], []);
    assert Records(t) + [] == Records(t) && Members(t) + [] == Members(t);
    assert ([CONNECTED_MEMBER_INFO] + Records(t))[1..] == Records(t);
    RecordsLength(t);
    AtMostOneWaits(t);
    MembersInOrder(t);
  }

  ghost predicate MembersSorted(ms: seq<Member>) {
    forall i, j :: 0 <= i < j < |ms| ==> Less(ms[i].mcode, ms[j].mcode)
  }

  lemma {:induction false} MembersInOrder(t: seq<Client>)
    requires IsTable(t)
    ensures MembersSorted(Members(t))
    ensures forall m :: m in Members(t) <==> exists c :: c in t && c.Admitted() && m == MemberOf(c)
  {
    if t != [] {
      var n := |t| - 1;
      var init := t[..n];
      MembersInOrder(init);
      assert t == init + [t[n]];
      forall m | m in Members(init)
        ensures Less(m.mcode, t[n].mcode)
      {
        var c :| c in init && c.Admitted() && m == MemberOf(c);
        var i :| 0 <= i < n && init[i] == c;
        assert t[i] == c;
      }
    }
  }
}
