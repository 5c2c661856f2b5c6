/** Who may cause what: the exact effect of each handler on modes, entries, rights, rows and streams. */
module CollaboEffects {
  import opened Bytes
  import opened ClientTable
  import opened MeetingNumber
  import opened MemberList
  import opened RoleTable
  import opened Collabo
  import opened CollaboInvariants

  // ----- The mode -----

  /** The table holds an admitted chief on that socket. */
  ghost predicate ChiefOn(s: Server, ws: nat) {
    exists c :: c in s.clients && c.ws == ws && c.Admitted() && c.chief
  }

  /** MODE that names the other mode, from an admitted chief. */
  ghost predicate SwitchesMode(s: Server, e: Event) {
    e.ChangeMode? && e.wanted.Some? && e.wanted.value != s.mode && ChiefOn(s, e.ws)
  }

  /**
   The mode changes iff an admitted chief names the other one; then a new stream starts for everybody
   who was connected. Any other MODE changes nothing at all.
   */
  lemma ModeChangesIff(s: Server, e: Event)
    requires TableInv(s) && RunningInv(s) && Enabled(s, e)
    ensures Step(s, e).mode != s.mode <==> SwitchesMode(s, e)
    ensures SwitchesMode(s, e) ==>
              var s' := Step(s, e);
              && s'.mode == e.wanted.value && s'.running && s'.packets == [] && s'.firstCount == 0 && s'.header == []
              && s'.db == s.db && s'.fullRequests == s.fullRequests
              && |s'.clients| == |s.clients|
              && forall i :: 0 <= i < |s.clients| ==> s'.clients[i] == s.clients[i].(video := [])
    ensures e.ChangeMode? && !SwitchesMode(s, e) ==> Step(s, e) == s
  {
    if e.ChangeMode? {
      var c := ByWs(s.clients, e.ws);
      if ChiefOn(s, e.ws) {
        var d :| d in s.clients && d.ws == e.ws && d.Admitted() && d.chief;
        OneOf(s.clients, c, d);
      }
    }
  }

  /** In a considerate run only a member whose row has role 0 changes the mode. */
  lemma ModeNeedsRole0(ss: seq<Server>, es: seq<Event>, i: nat)
    requires IsRun(ss, es) && i < |es| && ConsiderateRun(ss, es) && ss[i + 1].mode != ss[i].mode
    ensures es[i].ChangeMode? && es[i].wanted == Some(ss[i + 1].mode)
    ensures exists c :: c in ss[i].clients && c.ws == es[i].ws && RoleOf(ss[i].db, c.mcode, c.mscode) == Some(0)
  {
    RunInvariants(ss, es, i);
    RunAgrees(ss, es, i);
    ModeChangesIff(ss[i], es[i]);
    var c :| c in ss[i].clients && c.ws == es[i].ws && c.Admitted() && c.chief;
    assert RightsMatch(ss[i].db, c);
  }

  // ----- The entry of a socket -----

  /**
   SETTING without a row for the member in its meeting removes exactly that socket, and stops encoder
   and image loop if it was the last.
   */
  lemma UnknownLeaves(s: Server, ws: nat, mcode: Str, mscode: string, custom: Str, name: Str)
    requires TableInv(s) && Enabled(s, Setting(ws, mcode, mscode, custom, name)) && RoleOf(s.db, mcode, mscode).None?
    ensures var s' := OnSetting(s, ws, mcode, mscode, custom, name);
            && !HasWs(s'.clients, ws) && IsTable(s'.clients)
            && (forall c :: c in s'.clients <==> c in s.clients && c.ws != ws)
            && (if s'.clients == [] then !s'.running && (s.mode == Image ==> s'.imageLoops == 0)
                else s'.running == s.running && s'.imageLoops == s.imageLoops)
            && s' == s.(clients := s'.clients, running := s'.running, imageLoops := s'.imageLoops)
  {
    CloseMembers(s, ws);
    RemoveMembers(s.clients, ws);
  }

  ghost predicate SameTexts(c: Client, d: Client) {
    c.mcode == d.mcode && c.mscode == d.mscode && c.custom == d.custom && c.name == d.name && c.role == d.role
  }

  /** The entry carries what the SETTING said and the role of its row. */
  ghost predicate AsSet(db: Db, e: Event, c: Client)
    requires e.Setting?
  {
    && c.mcode == e.mcode && c.mscode == e.mscode && c.custom == e.custom && c.name == e.name
    && RoleOf(db, e.mcode, e.mscode) == Some(c.role)
  }

  lemma SettingEntry(s: Server, ws: nat, mcode: Str, mscode: string, custom: Str, name: Str, c: Client)
    requires TableInv(s) && Enabled(s, Setting(ws, mcode, mscode, custom, name))
    requires c in OnSetting(s, ws, mcode, mscode, custom, name).clients
    ensures c.ws == ws ==> AsSet(s.db, Setting(ws, mcode, mscode, custom, name), c) && c.Admitted()
    ensures c.ws != ws ==> c in s.clients
  {
    match RoleOf(s.db, mcode, mscode)
    case Some(role) =>
      SettingMembers(s, ws, mcode, mscode, custom, name);
      GreetedShape(s, ws, mcode, mscode, custom, name, role);
      var g := Greeted(s, ws, mcode, mscode, custom, name, role);
      assert c == g || (c in s.clients && c.ws != ws);
    case None => CloseMembers(s, ws);
  }

  lemma RightsKeepTexts(s: Server, e: Event, c: Client)
    requires TableInv(s) && Enabled(s, e) && (e.Authority? || e.Chief?) && c in Step(s, e).clients
    ensures exists d :: d in s.clients && d.ws == c.ws && SameTexts(d, c)
  {
    RightsMembers(s, e);
    var d :| d in s.clients && c == NewRights(s, e, d);
    RightsShape(s, e, d);
  }

  lemma StartKeepsTexts(s: Server, c: Client)
    requires TableInv(s) && c in StartStreaming(s).clients
    ensures exists d :: d in s.clients && d.ws == c.ws && SameTexts(d, c)
  {
    StreamingKeepsTable(s);
  }

  lemma PacketKeepsTexts(s: Server, buf: seq<byte>, c: Client)
    requires TableInv(s) && c in OnPacket(s, buf).clients
    ensures exists d :: d in s.clients && d.ws == c.ws && SameTexts(d, c)
  {
    SendAllMembers(s.clients, InitVideo(s.header + buf));
    SendAllMembers(s.clients, DecodeVideo(buf));
  }

  /** An entry after a handler: as its own SETTING set it, new and without rights, or with the texts and role it had. */
  lemma StepEntry(s: Server, e: Event, c: Client)
    requires TableInv(s) && Enabled(s, e) && c in Step(s, e).clients
    ensures if e.Setting? && e.ws == c.ws then AsSet(s.db, e, c) && c.Admitted()
            else (e.Open? && c == NewClient(e.ws)) || exists d :: d in s.clients && d.ws == c.ws && SameTexts(d, c)
  {
    match e
    case Open(ws) =>
      InsertMembers(s.clients, NewClient(ws));
      OpenMembers(s, ws);
      var s1 := s.(clients := Insert(s.clients, NewClient(ws)));
      if |s1.clients| == 1 {
        StartKeepsTexts(s1, c);
        StreamingKeepsTable(s1);
      }
    case Setting(ws, mcode, mscode, custom, name) => SettingEntry(s, ws, mcode, mscode, custom, name, c);
    case Authority(ws, dst) => RightsKeepTexts(s, e, c);
    case Chief(ws, dst) => RightsKeepTexts(s, e, c);
    case ChangeMode(ws, wanted) =>
      if OnMode(s, ws, wanted) != s {
        StartKeepsTexts(StopStreaming(s).(mode := wanted.value), c);
      }
    case Packet(buf) => PacketKeepsTexts(s, buf, c);
    case Close(ws) => CloseMembers(s, ws);
  }

  /** A handler that is no SETTING of the socket's own leaves texts and role of its entry. */
  lemma EntryNext(s: Server, e: Event, d: Client, c: Client)
    requires TableInv(s) && Enabled(s, e) && !SetsOwn(e, c.ws)
    requires d in s.clients && c in Step(s, e).clients && c.ws == d.ws
    ensures SameTexts(d, c)
  {
    StepEntry(s, e, c);
    if e.Open? && c == NewClient(e.ws) {
      Found(s.clients, d);
      assert false;
    }
    var b :| b in s.clients && b.ws == c.ws && SameTexts(b, c);
    OneOf(s.clients, d, b);
  }

  predicate SetsOwn(e: Event, ws: nat) {
    e.Setting? && e.ws == ws
  }

  /** The sender of the SETTING is admitted under its texts, and with the role of its row in db. */
  ghost predicate SetBy(s: Server, db: Db, e: Event)
    requires e.Setting?
  {
    HasWs(s.clients, e.ws) && ByWs(s.clients, e.ws).Admitted() && AsSet(db, e, ByWs(s.clients, e.ws))
  }

  lemma SetNow(s: Server, e: Event, s': Server)
    requires TableInv(s) && Enabled(s, e) && e.Setting? && s' == Step(s, e) && HasWs(s'.clients, e.ws)
    ensures SetBy(s', s.db, e)
  {
    StepEntry(s, e, ByWs(s'.clients, e.ws));
  }

  lemma SetNext(s: Server, e: Event, s': Server, db: Db, last: Event)
    requires TableInv(s) && Enabled(s, e) && s' == Step(s, e)
    requires last.Setting? && !SetsOwn(e, last.ws) && SetBy(s, db, last) && HasWs(s'.clients, last.ws)
    ensures SetBy(s', db, last)
  {
    EntryNext(s, e, ByWs(s.clients, last.ws), ByWs(s'.clients, last.ws));
  }

  lemma {:induction false} SetStays(ss: seq<Server>, es: seq<Event>, m: nat, n: nat, db: Db, last: Event)
    requires IsRun(ss, es) && m <= n <= |es| && last.Setting? && SetBy(ss[m], db, last)
    requires forall k :: m <= k < n ==> !SetsOwn(es[k], last.ws)
    requires forall k :: m <= k <= n ==> HasWs(ss[k].clients, last.ws)
    ensures SetBy(ss[n], db, last)
    decreases n
  {
    if m < n {
      SetStays(ss, es, m, n - 1, db, last);
      SetNextAt(ss, es, n - 1, db, last);
    }
  }

  lemma SetNextAt(ss: seq<Server>, es: seq<Event>, k: nat, db: Db, last: Event)
    requires IsRun(ss, es) && k < |es| && last.Setting? && SetBy(ss[k], db, last)
    requires !SetsOwn(es[k], last.ws) && HasWs(ss[k + 1].clients, last.ws)
    ensures SetBy(ss[k + 1], db, last)
  {
    RunInvariants(ss, es, k);
    var s, e, s' := ss[k], es[k], ss[k + 1];
    SetNext(s, e, s', db, last);
  }

  /**
   On every run a socket that stays connected after a SETTING is admitted, under the texts of its
   last SETTING and with the role its row had then.
   */
  lemma LastSettingTells(ss: seq<Server>, es: seq<Event>, i: nat, n: nat)
    requires IsRun(ss, es) && i < n <= |es| && es[i].Setting?
    requires forall k :: i < k < n ==> !SetsOwn(es[k], es[i].ws)
    requires forall k :: i < k <= n ==> HasWs(ss[k].clients, es[i].ws)
    ensures SetBy(ss[n], ss[i].db, es[i])
  {
    RunInvariants(ss, es, i);
    SetNow(ss[i], es[i], ss[i + 1]);
    SetStays(ss, es, i + 1, n, ss[i].db, es[i]);
  }

  lemma {:induction false} AdmittedAfter(ss: seq<Server>, es: seq<Event>, i: nat, n: nat, ws: nat)
    requires IsRun(ss, es) && i < n <= |es| && SetsOwn(es[i], ws)
    requires forall k :: i < k <= n ==> HasWs(ss[k].clients, ws)
    ensures ByWs(ss[n].clients, ws).Admitted()
    decreases n
  {
    if i < n - 1 {
      AdmittedAfter(ss, es, i, n - 1, ws);
    }
    AdmittedAt(ss, es, n - 1, ws);
  }

  lemma AdmittedAt(ss: seq<Server>, es: seq<Event>, k: nat, ws: nat)
    requires IsRun(ss, es) && k < |es| && HasWs(ss[k + 1].clients, ws)
    requires SetsOwn(es[k], ws) || (HasWs(ss[k].clients, ws) && ByWs(ss[k].clients, ws).Admitted())
    ensures ByWs(ss[k + 1].clients, ws).Admitted()
  {
    RunInvariants(ss, es, k);
    var s, e, s' := ss[k], es[k], ss[k + 1];
    AdmittedNext(s, e, s', ws);
  }

  lemma AdmittedNext(s: Server, e: Event, s': Server, ws: nat)
    requires TableInv(s) && Enabled(s, e) && s' == Step(s, e) && HasWs(s'.clients, ws)
    requires SetsOwn(e, ws) || (HasWs(s.clients, ws) && ByWs(s.clients, ws).Admitted())
    ensures ByWs(s'.clients, ws).Admitted()
  {
    if SetsOwn(e, ws) {
      SetNow(s, e, s');
    } else {
      EntryNext(s, e, ByWs(s.clients, ws), ByWs(s'.clients, ws));
    }
  }

  /** Whoever waits has sent no SETTING for as long as it has been connected. */
  lemma WaitingHasSentNone(ss: seq<Server>, es: seq<Event>, i: nat, n: nat, ws: nat)
    requires IsRun(ss, es) && i < n <= |es|
    requires forall k :: i < k <= n ==> HasWs(ss[k].clients, ws)
    requires !ByWs(ss[n].clients, ws).Admitted()
    ensures forall k :: i <= k < n ==> !SetsOwn(es[k], ws)
  {
    forall k | i <= k < n
      ensures !SetsOwn(es[k], ws)
    {
      if SetsOwn(es[k], ws) {
        AdmittedAfter(ss, es, k, n, ws);
      }
    }
  }

  // ----- Rights -----

  ghost predicate FromChief(s: Server, ws: nat) {
    exists c :: c in s.clients && c.ws == ws && c.chief
  }

  /**
   Apart from its own SETTING, an entry's rights change only when a chief's AUTHORITY or CHIEF names
   it, or when it hands the role on itself.
   */
  lemma RightsFollow(s: Server, e: Event, c: Client, d: Client)
    requires TableInv(s) && Enabled(s, e) && c in s.clients && d in Step(s, e).clients && c.ws == d.ws
    requires !(e.Setting? && e.ws == c.ws)
    ensures d.authority ==
            if e.Authority? && FromChief(s, e.ws) && e.dst == c.mcode then !c.authority
            else c.authority || (e.Chief? && FromChief(s, e.ws) && e.dst == c.mcode)
    ensures d.chief ==
            if e.Chief? && FromChief(s, e.ws) then e.dst == c.mcode || (c.chief && e.ws != c.ws) else c.chief
  {
    match e
    case Open(ws) => OpenSparesRights(s, ws, c, d);
    case Setting(ws, mcode, mscode, custom, name) =>
      SettingEntry(s, ws, mcode, mscode, custom, name, d);
      OneOf(s.clients, c, d);
    case Authority(ws, dst) => RightsOf(s, e, c, d);
    case Chief(ws, dst) => RightsOf(s, e, c, d);
    case ChangeMode(ws, wanted) => ModeSparesRights(s, ws, wanted, c, d);
    case Packet(buf) => PacketSparesRights(s, buf, c, d);
    case Close(ws) => CloseMembers(s, ws); OneOf(s.clients, c, d);
  }

  lemma RightsOf(s: Server, e: Event, c: Client, d: Client)
    requires TableInv(s) && Enabled(s, e) && (e.Authority? || e.Chief?)
    requires c in s.clients && d in Step(s, e).clients && c.ws == d.ws
    ensures d == NewRights(s, e, c)
    ensures ByWs(s.clients, e.ws).chief <==> FromChief(s, e.ws)
    ensures c.mcode == ByWs(s.clients, e.ws).mcode <==> c.ws == e.ws
    ensures e.Authority? && FromChief(s, e.ws) && c.mcode == e.dst ==> c == ByMcode(s.clients, e.dst)
  {
    RightsMembers(s, e);
    var b :| b in s.clients && d == NewRights(s, e, b);
    RightsShape(s, e, b);
    OneOf(s.clients, c, b);
    SenderOf(s, e.ws, c);
    if e.Authority? && ByWs(s.clients, e.ws).chief && c.mcode == e.dst {
      SameMcodeSameClient(s.clients, c, ByMcode(s.clients, e.dst));
    }
  }

  lemma SenderOf(s: Server, ws: nat, c: Client)
    requires TableInv(s) && HasWs(s.clients, ws) && c in s.clients
    ensures ByWs(s.clients, ws).chief <==> FromChief(s, ws)
    ensures c.mcode == ByWs(s.clients, ws).mcode <==> c.ws == ws
  {
    var sender := ByWs(s.clients, ws);
    if FromChief(s, ws) {
      var a :| a in s.clients && a.ws == ws && a.chief;
      OneOf(s.clients, sender, a);
    }
    if c.mcode == sender.mcode || c.ws == ws {
      SameMcodeSameClient(s.clients, c, sender);
    }
  }

  lemma OpenSparesRights(s: Server, ws: nat, c: Client, d: Client)
    requires TableInv(s) && !HasWs(s.clients, ws) && c in s.clients && d in OnOpen(s, ws).clients && c.ws == d.ws
    ensures d.authority == c.authority && d.chief == c.chief
  {
    InsertMembers(s.clients, NewClient(ws));
    OpenMembers(s, ws);
    StreamingKeepsTable(s.(clients := Insert(s.clients, NewClient(ws))));
    OneOf(s.clients, c, d);
    Found(s.clients, c);
  }

  lemma ModeSparesRights(s: Server, ws: nat, wanted: Option<Mode>, c: Client, d: Client)
    requires TableInv(s) && HasWs(s.clients, ws) && c in s.clients && d in OnMode(s, ws, wanted).clients && c.ws == d.ws
    ensures d.authority == c.authority && d.chief == c.chief
  {
    OneOf(s.clients, c, d);
    if OnMode(s, ws, wanted) != s {
      var s1 := StopStreaming(s).(mode := wanted.value);
      StreamingKeepsTable(s1);
      var b :| b in s1.clients && (d == b || (!s1.running && d == b.(video := [])));
      OneOf(s.clients, c, b);
    }
  }

  lemma PacketSparesRights(s: Server, buf: seq<byte>, c: Client, d: Client)
    requires TableInv(s) && c in s.clients && d in OnPacket(s, buf).clients && c.ws == d.ws
    ensures d.authority == c.authority && d.chief == c.chief
  {
    SendAllMembers(s.clients, InitVideo(s.header + buf));
    SendAllMembers(s.clients, DecodeVideo(buf));
    if d in s.clients {
      OneOf(s.clients, c, d);
    } else {
      var m := if s.firstCount < 2 then InitVideo(s.header + buf) else DecodeVideo(buf);
      var b :| b in s.clients && d == SendTo(b, m);
      OneOf(s.clients, c, b);
    }
  }

  /** Flipping a row that holds 1 or 2 twice restores it. */
  lemma RowTwice(db: Db, dst: Str, mscode: string, authority: bool)
    requires RoleOf(db, dst, mscode) == Some(if authority then 1 else 2)
    ensures ChangeAuth(ChangeAuth(db, dst, !authority, mscode), dst, authority, mscode) == db
  {
    var row := RowOf(db, dst, mscode).value;
    var db' := ChangeAuth(db, dst, !authority, mscode);
    assert RowOf(db', dst, mscode) == Some(row);
    assert db'.roles[row := db.roles[row]] == db.roles;
  }

  lemma FlagTwice(t: seq<Client>, d: Client)
    requires IsTable(t) && d in t
    ensures SetAuthority(SetAuthority(t, d.mcode, !d.authority), d.mcode, d.authority) == t
  {
    forall i | 0 <= i < |t| && t[i].mcode == d.mcode
      ensures t[i] == d
    {
      SameMcodeSameClient(t, t[i], d);
    }
  }

  /** AUTHORITY for somebody else flips that flag, and leaves the sender as it is. */
  lemma AuthorityFlips(s: Server, ws: nat, dst: Str)
    requires TableInv(s) && Enabled(s, Authority(ws, dst))
    requires ByWs(s.clients, ws).chief && !ByMcode(s.clients, dst).chief
    ensures var t, d := OnAuthority(s, ws, dst).clients, ByMcode(s.clients, dst);
            && HasWs(t, ws) && ByWs(t, ws) == ByWs(s.clients, ws)
            && HasMcode(t, dst) && ByMcode(t, dst) == d.(authority := !d.authority)
  {
    var e, sender, d := Authority(ws, dst), ByWs(s.clients, ws), ByMcode(s.clients, dst);
    RightsMembers(s, e);
    if sender.mcode == dst {
      SameMcodeSameClient(s.clients, sender, d);
    }
    Found(OnAuthority(s, ws, dst).clients, NewRights(s, e, sender));
    Found(OnAuthority(s, ws, dst).clients, NewRights(s, e, d));
  }

  /** AUTHORITY for somebody who is not chief and whose row holds 1 or 2, sent twice, leaves everything as it was. */
  lemma AuthorityTwice(s: Server, ws: nat, dst: Str)
    requires TableInv(s) && Agree(s) && RolesBounded(s.db) && Enabled(s, Authority(ws, dst))
    requires ByWs(s.clients, ws).chief && !ByMcode(s.clients, dst).chief
    ensures Enabled(OnAuthority(s, ws, dst), Authority(ws, dst))
    ensures OnAuthority(OnAuthority(s, ws, dst), ws, dst) == s
  {
    var d, s' := ByMcode(s.clients, dst), OnAuthority(s, ws, dst);
    assert HasWs(s'.clients, ws) && ByWs(s'.clients, ws).chief
           && HasMcode(s'.clients, dst) && ByMcode(s'.clients, dst) == d.(authority := !d.authority) by {
      AuthorityFlips(s, ws, dst);
    }
    assert ChangeAuth(ChangeAuth(s.db, dst, !d.authority, d.mscode), dst, d.authority, d.mscode) == s.db by {
      RowOfFlag(s, d);
      RowTwice(s.db, dst, d.mscode, d.authority);
    }
    FlagTwice(s.clients, d);
    FlipAgain(s, s', ws, dst, d);
  }

  lemma RowOfFlag(s: Server, d: Client)
    requires Agree(s) && RolesBounded(s.db) && d in s.clients && d.Admitted() && !d.chief
    ensures RoleOf(s.db, d.mcode, d.mscode) == Some(if d.authority then 1 else 2)
  {
    assert RightsMatch(s.db, d);
  }

  lemma FlipAgain(s: Server, s': Server, ws: nat, dst: Str, d: Client)
    requires HasWs(s'.clients, ws) && ByWs(s'.clients, ws).chief
    requires HasMcode(s'.clients, dst) && ByMcode(s'.clients, dst) == d.(authority := !d.authority) && d.mcode == dst
    requires s' == s.(clients := SetAuthority(s.clients, dst, !d.authority),
                      db := ChangeAuth(s.db, dst, !d.authority, d.mscode))
    requires SetAuthority(SetAuthority(s.clients, dst, !d.authority), dst, d.authority) == s.clients
    requires ChangeAuth(ChangeAuth(s.db, dst, !d.authority, d.mscode), dst, d.authority, d.mscode) == s.db
    ensures OnAuthority(s', ws, dst) == s
  {
  }

  // ----- Rights of whoever waits -----

  ghost predicate WaitingClear(s: Server) {
    forall c :: c in s.clients && !c.Admitted() ==> !c.authority && !c.chief
  }

  lemma WaitingNotNamed(s: Server, e: Event, d: Client)
    requires TableInv(s) && Enabled(s, e) && (e.Authority? || e.Chief?) && !ChiefToWaiting(s, e)
    requires d in s.clients && !d.Admitted()
    ensures ByWs(s.clients, e.ws).chief ==> e.dst != d.mcode
  {
    if ByWs(s.clients, e.ws).chief {
      SameOrOther(s.clients, d, ByMcode(s.clients, e.dst));
    }
  }

  lemma SameOrOther(t: seq<Client>, a: Client, b: Client)
    requires IsTable(t) && a in t && b in t
    ensures a.mcode == b.mcode ==> a == b
  {
    if a.mcode == b.mcode {
      SameMcodeSameClient(t, a, b);
    }
  }

  lemma WaitingStays(s: Server, e: Event, c: Client)
    requires TableInv(s) && Enabled(s, e) && WaitingClear(s) && !ChiefToWaiting(s, e)
    requires c in Step(s, e).clients && !c.Admitted()
    ensures !c.authority && !c.chief
  {
    StepEntry(s, e, c);
    if !(e.Open? && c == NewClient(e.ws)) {
      var d :| d in s.clients && d.ws == c.ws && SameTexts(d, c);
      RightsFollow(s, e, d, c);
      if e.Authority? || e.Chief? {
        RightsOf(s, e, d, c);
        WaitingNotNamed(s, e, d);
      }
    }
  }

  /** A handler leaves whoever waits without rights iff it is no chief's CHIEF to whoever waits. */
  lemma WaitingClearIff(s: Server, e: Event)
    requires TableInv(s) && Enabled(s, e) && WaitingClear(s)
    ensures WaitingClear(Step(s, e)) <==> !ChiefToWaiting(s, e)
  {
    if ChiefToWaiting(s, e) {
      var d := ByMcode(s.clients, e.dst);
      RightsMembers(s, e);
      RightsShape(s, e, d);
      assert NewRights(s, e, d) in Step(s, e).clients;
    } else {
      forall c | c in Step(s, e).clients && !c.Admitted()
        ensures !c.authority && !c.chief
      {
        WaitingStays(s, e, c);
      }
    }
  }

  // ----- Rows -----

  /** The roles isSuited knows. */
  ghost predicate RolesBounded(db: Db) {
    forall row :: row in db.roles ==> db.roles[row] <= 2
  }

  /** No handler stores a role isSuited does not know. */
  lemma StepKeepsRoles(s: Server, e: Event)
    requires Enabled(s, e) && RolesBounded(s.db)
    ensures RolesBounded(Step(s, e).db)
  {
    if e.Authority? && ByWs(s.clients, e.ws).chief {
      var d := ByMcode(s.clients, e.dst);
      UpdateBounded(s.db, e.dst, d.mscode, if d.authority then 2 else 1);
    } else if e.Chief? && ByWs(s.clients, e.ws).chief {
      var c := ByWs(s.clients, e.ws);
      UpdateBounded(s.db, c.mcode, c.mscode, 1);
      UpdateBounded(UpdateRole(s.db, c.mcode, c.mscode, 1), e.dst, c.mscode, 0);
    }
  }

  lemma UpdateBounded(db: Db, mcode: Str, mscode: string, role: nat)
    requires RolesBounded(db) && role <= 2
    ensures RolesBounded(UpdateRole(db, mcode, mscode, role))
  {
  }

  lemma {:induction false} RunRoles(ss: seq<Server>, es: seq<Event>, n: nat)
    requires IsRun(ss, es) && n <= |es| && RolesBounded(ss[0].db)
    ensures RolesBounded(ss[n].db)
  {
    if n > 0 {
      RunRoles(ss, es, n - 1);
      StepKeepsRoles(ss[n - 1], es[n - 1]);
    }
  }

  // ----- Streams and full frames -----

  /** A full frame is requested iff a known member is admitted in image mode. */
  lemma FullRequestsIff(s: Server, e: Event)
    requires Enabled(s, e)
    ensures Step(s, e).fullRequests
            == s.fullRequests
               + if e.Setting? && RoleOf(s.db, e.mcode, e.mscode).Some? && s.mode == Image then 1 else 0
  {
  }

  /** A stream begins with the first socket, and with a change of mode. */
  ghost predicate BeginsStream(s: Server, e: Event) {
    (e.Open? && s.clients == []) || SwitchesMode(s, e)
  }

  /** The packets the encoder has put out since the last stream began. */
  ghost function StreamOf(ss: seq<Server>, es: seq<Event>, n: nat): seq<seq<byte>>
    requires n <= |es| < |ss|
  {
    if n == 0 || BeginsStream(ss[n - 1], es[n - 1]) then []
    else StreamOf(ss, es, n - 1) + if es[n - 1].Packet? then [es[n - 1].buf] else []
  }

  lemma StepStream(s: Server, e: Event)
    requires TableInv(s) && RunningInv(s) && Enabled(s, e)
    ensures Step(s, e).packets
            == if BeginsStream(s, e) then [] else s.packets + if e.Packet? then [e.buf] else []
  {
    ModeChangesIff(s, e);
    if e.Open? {
      InsertMembers(s.clients, NewClient(e.ws));
    }
  }

  /** On every run the packets the clients' logs are measured by are those. */
  lemma {:induction false} RunStream(ss: seq<Server>, es: seq<Event>, n: nat)
    requires IsRun(ss, es) && n <= |es|
    ensures ss[n].packets == StreamOf(ss, es, n)
  {
    if n > 0 {
      RunStream(ss, es, n - 1);
      StreamAt(ss, es, n - 1);
    }
  }

  lemma StreamAt(ss: seq<Server>, es: seq<Event>, k: nat)
    requires IsRun(ss, es) && k < |es|
    ensures ss[k + 1].packets
            == if BeginsStream(ss[k], es[k]) then [] else ss[k].packets + if es[k].Packet? then [es[k].buf] else []
  {
    RunInvariants(ss, es, k);
    StepStream(ss[k], es[k]);
  }
}
