/**
 The client list of Collabo.cpp: unique by mcode and kept in the order of the mcode index, which is
 the order of its traversals. An insertion that would repeat an mcode is refused.
 */
module ClientTable {
  import opened Bytes

  type Str = seq<byte>

  datatype VideoMsg = InitVideo(header: seq<byte>) | DecodeVideo(packet: seq<byte>)

  /** video holds what the socket has been sent of the current stream, since the last START. */
  datatype Client = Client(ws: nat, mcode: Str, mscode: string, custom: Str, name: Str,
                           role: int, authority: bool, chief: bool, video: seq<VideoMsg>)
  {
    predicate Admitted() {
      role != -1
    }
  }

  function NewClient(ws: nat): Client {
    Client(ws, [], "", [], [], -1, false, false, [])
  }

  // ----- std::string order -----

  predicate Less(a: Str, b: Str) {
    b != [] && (a == [] || a[0] < b[0] || (a[0] == b[0] && Less(a[1..], b[1..])))
  }

  /** The order is that of the first difference, with the shorter text first when there is none. */
  ghost predicate FirstDiffersAt(a: Str, b: Str, k: nat) {
    k <= |a| && k < |b| && a[..k] == b[..k] && (k == |a| || a[k] < b[k])
  }

  lemma {:induction false} LessIsLexicographic(a: Str, b: Str)
    ensures Less(a, b) <==> exists k: nat :: FirstDiffersAt(a, b, k)
  {
    if a == [] || b == [] || a[0] < b[0] {
      assert b != [] ==> FirstDiffersAt(a, b, 0);
    } else if a[0] == b[0] {
      LessIsLexicographic(a[1..], b[1..]);
      assert a == [a[0]] + a[1..] && b == [b[0]] + b[1..];
      if Less(a[1..], b[1..]) {
        var k: nat :| FirstDiffersAt(a[1..], b[1..], k);
        assert a[..k + 1] == [a[0]] + a[1..][..k] && b[..k + 1] == [b[0]] + b[1..][..k];
        assert FirstDiffersAt(a, b, k + 1);
      }
      if k: nat :| FirstDiffersAt(a, b, k) {
        assert a[1..][..k - 1] == a[..k][1..] && b[1..][..k - 1] == b[..k][1..];
        assert FirstDiffersAt(a[1..], b[1..], k - 1);
      }
    } else {
      assert forall k: nat :: 0 < k <= |a| && k <= |b| ==> a[..k][0] != b[..k][0];
    }
  }

  lemma {:induction false} LessIsIrreflexive(a: Str)
    ensures !Less(a, a)
  {
    if a != [] {
      LessIsIrreflexive(a[1..]);
    }
  }

  lemma {:induction false} LessIsStrict(a: Str, b: Str)
    ensures !(Less(a, b) && Less(b, a)) && !Less(a, a)
    ensures Less(a, b) || Less(b, a) || a == b
  {
    LessIsIrreflexive(a);
    if a != [] && b != [] && a[0] == b[0] {
      LessIsStrict(a[1..], b[1..]);
      assert a == [a[0]] + a[1..] && b == [b[0]] + b[1..];
    }
  }

  lemma {:induction false} LessIsTransitive(a: Str, b: Str, c: Str)
    requires Less(a, b) && Less(b, c)
    ensures Less(a, c)
  {
    if a != [] && a[0] == b[0] == c[0] {
      LessIsTransitive(a[1..], b[1..], c[1..]);
    }
  }

  // ----- The table -----

  ghost predicate Sorted(t: seq<Client>) {
    forall i, j :: 0 <= i < j < |t| ==> Less(t[i].mcode, t[j].mcode)
  }

  predicate HasMcode(t: seq<Client>, mcode: Str) {
    exists i :: 0 <= i < |t| && t[i].mcode == mcode
  }

  predicate HasWs(t: seq<Client>, ws: nat) {
    exists i :: 0 <= i < |t| && t[i].ws == ws
  }

  function ByMcode(t: seq<Client>, mcode: Str): (c: Client)
    requires HasMcode(t, mcode)
    ensures c in t && c.mcode == mcode
  {
    if t[0].mcode == mcode then t[0] else ByMcode(t[1..], mcode)
  }

  function ByWs(t: seq<Client>, ws: nat): (c: Client)
    requires HasWs(t, ws)
    ensures c in t && c.ws == ws
  {
    if t[0].ws == ws then t[0] else ByWs(t[1..], ws)
  }

  function Insert(t: seq<Client>, c: Client): seq<Client> {
    if t == [] then [c]
    else if t[0].mcode == c.mcode then t
    else if Less(c.mcode, t[0].mcode) then [c] + t
    else [t[0]] + Insert(t[1..], c)
  }

  function Remove(t: seq<Client>, ws: nat): seq<Client> {
    if t == [] then [] else (if t[0].ws == ws then [] else [t[0]]) + Remove(t[1..], ws)
  }

  /** Sorted by mcode, hence unique by mcode, and no socket twice. */
  ghost predicate IsTable(t: seq<Client>) {
    Sorted(t) && forall i, j :: 0 <= i < j < |t| ==> t[i].ws != t[j].ws
  }

  lemma SortedTail(t: seq<Client>)
    requires IsTable(t) && t != []
    ensures IsTable(t[1..])
    ensures forall c :: c in t[1..] ==> c.mcode != t[0].mcode && c.ws != t[0].ws && Less(t[0].mcode, c.mcode)
  {
    forall i | 0 <= i < |t[1..]|
      ensures t[1..][i].mcode != t[0].mcode && t[1..][i].ws != t[0].ws && Less(t[0].mcode, t[1..][i].mcode)
    {
      LessIsStrict(t[0].mcode, t[i + 1].mcode);
    }
  }

  lemma SameMcodeSameClient(t: seq<Client>, a: Client, b: Client)
    requires IsTable(t) && a in t && b in t && (a.mcode == b.mcode || a.ws == b.ws)
    ensures a == b
  {
    var i :| 0 <= i < |t| && t[i] == a;
    var j :| 0 <= j < |t| && t[j] == b;
    LessIsStrict(a.mcode, a.mcode);
  }

  lemma HasMcodeTail(t: seq<Client>, mcode: Str)
    requires t != []
    ensures HasMcode(t, mcode) <==> t[0].mcode == mcode || HasMcode(t[1..], mcode)
  {
    if HasMcode(t[1..], mcode) {
      var i :| 0 <= i < |t[1..]| && t[1..][i].mcode == mcode;
      assert t[i + 1].mcode == mcode;
    }
    if HasMcode(t, mcode) && t[0].mcode != mcode {
      var i :| 0 <= i < |t| && t[i].mcode == mcode;
      assert t[1..][i - 1].mcode == mcode;
    }
  }

  lemma BelowFirst(t: seq<Client>, mcode: Str)
    requires IsTable(t) && t != [] && Less(mcode, t[0].mcode)
    ensures !HasMcode(t, mcode)
  {
    forall i | 0 <= i < |t|
      ensures t[i].mcode != mcode
    {
      LessIsStrict(mcode, t[0].mcode);
      if i > 0 {
        LessIsTransitive(mcode, t[0].mcode, t[i].mcode);
      }
      LessIsIrreflexive(mcode);
    }
  }

  lemma {:induction false} InsertMembers(t: seq<Client>, c: Client)
    requires IsTable(t)
    ensures HasMcode(t, c.mcode) ==> Insert(t, c) == t
    ensures !HasMcode(t, c.mcode) ==> forall x :: x in Insert(t, c) <==> x in t || x == c
    ensures |Insert(t, c)| == |t| + if HasMcode(t, c.mcode) then 0 else 1
  {
    if t != [] {
      HasMcodeTail(t, c.mcode);
      if t[0].mcode == c.mcode {
      } else if Less(c.mcode, t[0].mcode) {
        BelowFirst(t, c.mcode);
      } else {
        SortedTail(t);
        InsertMembers(t[1..], c);
        assert t == [t[0]] + t[1..];
      }
    }
  }

  lemma {:induction false} InsertKeepsTable(t: seq<Client>, c: Client)
    requires IsTable(t) && !HasWs(t, c.ws)
    ensures IsTable(Insert(t, c))
  {
    if t == [] || t[0].mcode == c.mcode {
    } else if Less(c.mcode, t[0].mcode) {
      var r := [c] + t;
      forall i, j | 0 <= i < j < |r|
        ensures Less(r[i].mcode, r[j].mcode) && r[i].ws != r[j].ws
      {
        if i == 0 && j > 1 {
          LessIsTransitive(c.mcode, t[0].mcode, t[j - 1].mcode);
        }
      }
    } else {
      LessIsStrict(c.mcode, t[0].mcode);
      SortedTail(t);
      assert !HasWs(t[1..], c.ws);
      InsertKeepsTable(t[1..], c);
      InsertMembers(t[1..], c);
      var s := Insert(t[1..], c);
      assert t[0].ws != c.ws;
      forall k | 0 <= k < |s|
        ensures Less(t[0].mcode, s[k].mcode) && t[0].ws != s[k].ws
      {
        assert s[k] in s;
      }
    }
  }

  lemma {:induction false} RemoveMembers(t: seq<Client>, ws: nat)
    ensures forall x :: x in Remove(t, ws) <==> x in t && x.ws != ws
    ensures |Remove(t, ws)| <= |t|
    ensures !HasWs(Remove(t, ws), ws)
  {
    if t != [] {
      RemoveMembers(t[1..], ws);
      var r := Remove(t[1..], ws);
      assert Remove(t, ws) == (if t[0].ws == ws then [] else [t[0]]) + r;
      assert t == [t[0]] + t[1..];
    }
  }

  lemma {:induction false} RemoveKeepsTable(t: seq<Client>, ws: nat)
    requires IsTable(t)
    ensures IsTable(Remove(t, ws))
  {
    if t != [] {
      SortedTail(t);
      RemoveKeepsTable(t[1..], ws);
      RemoveMembers(t[1..], ws);
      var r := Remove(t[1..], ws);
      forall k | 0 <= k < |r|
        ensures Less(t[0].mcode, r[k].mcode) && t[0].ws != r[k].ws
      {
        assert r[k] in r;
      }
    }
  }

  /** Removing the one socket that is there shortens the table by one. */
  lemma {:induction false} RemoveOne(t: seq<Client>, i: nat)
    requires IsTable(t) && i < |t|
    ensures Remove(t, t[i].ws) == t[..i] + t[i + 1..]
  {
    SortedTail(t);
    if i == 0 {
      RemoveNone(t[1..], t[0].ws);
    } else {
      RemoveOne(t[1..], i - 1);
      assert t[..i] == [t[0]] + t[1..][..i - 1];
      assert t[1..][i..] == t[i + 1..];
    }
  }

  lemma {:induction false} RemoveNone(t: seq<Client>, ws: nat)
    requires forall c :: c in t ==> c.ws != ws
    ensures Remove(t, ws) == t
  {
    if t != [] {
      assert t[0] in t;
      RemoveNone(t[1..], ws);
    }
  }

  /** Where an insertion that is not refused puts the new entry. */
  lemma {:induction false} InsertAt(t: seq<Client>, c: Client, i: nat)
    requires IsTable(t) && i <= |t|
    requires forall k :: 0 <= k < i ==> Less(t[k].mcode, c.mcode)
    requires i < |t| ==> Less(c.mcode, t[i].mcode)
    ensures Insert(t, c) == t[..i] + [c] + t[i..]
  {
    if t != [] {
      LessIsStrict(t[0].mcode, c.mcode);
      if i > 0 {
        SortedTail(t);
        InsertAt(t[1..], c, i - 1);
        assert t[..i] == [t[0]] + t[1..][..i - 1];
      } else {
        assert t[..0] + [c] + t[0..] == [c] + t;
      }
    }
  }

  // ----- Changes that keep every mcode and socket in place -----

  ghost predicate SameKeys(t: seq<Client>, u: seq<Client>) {
    |t| == |u| && forall i :: 0 <= i < |t| ==> t[i].mcode == u[i].mcode && t[i].ws == u[i].ws
  }

  lemma SameKeysKeepsTable(t: seq<Client>, u: seq<Client>)
    requires IsTable(t) && SameKeys(t, u)
    ensures IsTable(u)
  {
  }

  function SetAuthority(t: seq<Client>, mcode: Str, authority: bool): seq<Client> {
    seq(|t|, i requires 0 <= i < |t| => if t[i].mcode == mcode then t[i].(authority := authority) else t[i])
  }

  function SetChief(t: seq<Client>, mcode: Str, chief: bool): seq<Client> {
    seq(|t|, i requires 0 <= i < |t| => if t[i].mcode == mcode then t[i].(chief := chief) else t[i])
  }

  function SendTo(c: Client, m: VideoMsg): Client {
    if c.Admitted() then c.(video := c.video + [m]) else c
  }

  function SendAll(t: seq<Client>, m: VideoMsg): seq<Client> {
    seq(|t|, i requires 0 <= i < |t| => SendTo(t[i], m))
  }

  /** A new stream: nothing of it has been sent to anyone. */
  function ClearLogs(t: seq<Client>): seq<Client> {
    seq(|t|, i requires 0 <= i < |t| => t[i].(video := []))
  }
}
