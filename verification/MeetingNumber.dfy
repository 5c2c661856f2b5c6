/** How MySQLConnector.cpp cuts the meeting number out of a meeting code. */
module MeetingNumber {
  import opened Bytes
  import opened Base64

  const FROM: seq<byte> := [102, 114, 111, 109]

  /** The part of a string a C function sees. */
  function CString(s: seq<byte>): seq<byte> {
    if s == [] || s[0] == 0 then [] else [s[0]] + CString(s[1..])
  }

  predicate FromAt(s: seq<byte>, i: nat) {
    i + 4 <= |s| && s[i] == FROM[0] && s[i + 1] == FROM[1] && s[i + 2] == FROM[2] && s[i + 3] == FROM[3]
  }

  /** strstr(s, "from"). */
  function FindFrom(s: seq<byte>, i: nat): (r: Option<nat>)
    requires i <= |s|
    ensures r.Some? ==> i <= r.value && FromAt(s, r.value) && forall k :: i <= k < r.value ==> !FromAt(s, k)
    ensures r.None? ==> forall k :: i <= k ==> !FromAt(s, k)
    decreases |s| - i
  {
    if FromAt(s, i) then Some(i)
    else if i == |s| then None
    else FindFrom(s, i + 1)
  }

  /**
   The characters before the first "from". None where the source dereferences a null pointer or
   leaves its ten-byte buffer without a terminator.
   */
  function Cut(decoded: seq<byte>): Option<seq<byte>> {
    var s := CString(decoded);
    var p := FindFrom(s, 0);
    if p.Some? && p.value <= 9 then Some(s[..p.value]) else None
  }

  function MeetingOf(mscode: string): Option<seq<byte>> {
    var decoded := Decode(mscode);
    if decoded == None then None else Cut(decoded.value)
  }

  /** The cut recovers what precedes "from" iff that has at most nine characters, no NUL and no "from" of its own. */
  lemma MeetingRecoveredIff(number: seq<byte>, rest: seq<byte>)
    ensures MeetingOf(Encode(number + FROM + rest)) == Some(number)
            <==> |number| <= 9 && 0 !in number && forall i :: 0 <= i ==> !FromAt(number, i)
  {
    var v := number + FROM + rest;
    DecodeEncode(v);
    TrimKeeps(v, |number| + 3);
    CutIff(number, TrimNul(v));
  }

  /** A code names a meeting iff a "from" starts among the first ten characters with no NUL before it. */
  lemma MeetingFoundIff(v: seq<byte>)
    ensures MeetingOf(Encode(v)).Some? <==> exists i: nat :: i <= 9 && FromAt(v, i) && 0 !in v[..i]
  {
    DecodeEncode(v);
    if i: nat :| i <= 9 && FromAt(v, i) && 0 !in v[..i] {
      CutFinds(v, i);
    }
    if MeetingOf(Encode(v)).Some? {
      FoundByCut(v);
    }
  }

  lemma CutFinds(v: seq<byte>, i: nat)
    requires i <= 9 && FromAt(v, i) && 0 !in v[..i]
    ensures Cut(TrimNul(v)).Some?
  {
    var t := TrimNul(v);
    TrimKeeps(v, i + 3);
    CStringPrefix(t);
    forall k | 0 <= k < i + 4
      ensures t[k] != 0
    {
      assert k < i ==> v[..i][k] == t[k];
    }
    CStringLong(t, i + 4);
    assert FromAt(CString(t), i);
  }

  lemma FoundByCut(v: seq<byte>)
    requires Cut(TrimNul(v)).Some?
    ensures exists i: nat :: i <= 9 && FromAt(v, i) && 0 !in v[..i]
  {
    TrimShortens(v);
    CStringPrefix(TrimNul(v));
    var s := CString(TrimNul(v));
    var i := FindFrom(s, 0).value;
    assert FromAt(v, i) && v[..i] == s[..i];
  }

  lemma CutIff(number: seq<byte>, t: seq<byte>)
    requires |t| >= |number| + 4 && t[..|number|] == number && FromAt(t, |number|)
    ensures Cut(t) == Some(number)
            <==> |number| <= 9 && 0 !in number && forall i :: 0 <= i ==> !FromAt(number, i)
  {
    CStringPrefix(t);
    var s := CString(t);
    if 0 !in number {
      forall i | 0 <= i < |number| + 4
        ensures t[i] != 0
      {
        assert i < |number| ==> t[i] == number[i];
      }
      CStringLong(t, |number| + 4);
      assert s[..|number|] == number;
      assert FromAt(s, |number|);
      OccurrencesAgree(number, s);
    } else {
      assert forall k :: 0 <= k <= |s| ==> 0 !in s[..k];
    }
  }

  lemma {:induction false} TrimKeeps(v: seq<byte>, i: nat)
    requires i < |v| && v[i] != 0
    ensures i < |TrimNul(v)| <= |v| && TrimNul(v) == v[..|TrimNul(v)|]
  {
    if v[|v| - 1] == 0 {
      TrimKeeps(v[..|v| - 1], i);
    }
  }

  lemma {:induction false} CStringPrefix(s: seq<byte>)
    ensures |CString(s)| <= |s| && CString(s) == s[..|CString(s)|]
    ensures 0 !in CString(s)
  {
    if s != [] && s[0] != 0 {
      CStringPrefix(s[1..]);
    }
  }

  lemma {:induction false} CStringLong(s: seq<byte>, n: nat)
    requires n <= |s| && forall i :: 0 <= i < n ==> s[i] != 0
    ensures |CString(s)| >= n
  {
    if n > 0 {
      CStringLong(s[1..], n - 1);
    }
  }

  /** "from" does not overlap itself: no occurrence starts inside number and ends behind it. */
  lemma OccurrencesAgree(number: seq<byte>, s: seq<byte>)
    requires |s| >= |number| + 4 && s[..|number|] == number && FromAt(s, |number|)
    ensures forall i :: 0 <= i < |number| ==> (FromAt(s, i) <==> FromAt(number, i))
  {
    assert forall i :: 0 <= i < |number| ==> s[i] == number[i];
  }
}
