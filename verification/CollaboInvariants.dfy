/** What every handler of the server keeps, and what holds over whole runs of it. */
module CollaboInvariants {
  import opened Bytes
  import opened ClientTable
  import opened MeetingNumber
  import opened MemberList
  import opened RoleTable
  import opened Collabo

  // ----- The table -----

  /**
   An entry is untouched, but for rights a CHIEF may have given it, until it is admitted; admitted
   entries have a non-empty mcode and texts of int length.
   */
  ghost predicate WellFormed(c: Client) {
    if c.Admitted() then c.mcode != [] && c.role >= 0 && Fits(c)
    else c == NewClient(c.ws).(authority := c.authority, chief := c.chief)
  }

  ghost predicate TableInv(s: Server) {
    IsTable(s.clients) && forall c :: c in s.clients ==> WellFormed(c)
  }

  lemma StreamingKeepsTable(s: Server)
    requires TableInv(s)
    ensures TableInv(StartStreaming(s)) && TableInv(StopStreaming(s))
    ensures forall c :: c in StartStreaming(s).clients ==>
              exists d :: d in s.clients && (c == d || (!s.running && c == d.(video := [])))
    ensures forall d :: d in s.clients ==> (if s.running then d else d.(video := [])) in StartStreaming(s).clients
    ensures !s.running ==> forall c :: c in StartStreaming(s).clients ==> c.video == []
  {
    var t, u := s.clients, ClearLogs(s.clients);
    SameKeysKeepsTable(t, u);
    forall c | c in u
      ensures c.video == [] && exists d :: d in t && c == d.(video := [])
    {
      var i :| 0 <= i < |u| && u[i] == c;
      assert t[i] in t;
    }
    forall d | d in t
      ensures d.(video := []) in u
    {
      var i :| 0 <= i < |t| && t[i] == d;
      assert u[i] == d.(video := []);
    }
  }

  lemma SendAllMembers(t: seq<Client>, m: VideoMsg)
    requires IsTable(t)
    ensures IsTable(SendAll(t, m))
    ensures forall c :: c in SendAll(t, m) ==> exists d :: d in t && c == SendTo(d, m)
  {
    var u := SendAll(t, m);
    SameKeysKeepsTable(t, u);
    forall c | c in u
      ensures exists d :: d in t && c == SendTo(d, m)
    {
      var i :| 0 <= i < |u| && u[i] == c;
      assert t[i] in t;
    }
  }

  lemma OthersMembers(t: seq<Client>, ws: nat, mcode: Str)
    requires IsTable(t)
    ensures IsTable(Others(t, ws, mcode)) && !HasWs(Others(t, ws, mcode), ws) && !HasMcode(Others(t, ws, mcode), mcode)
    ensures forall c :: c in Others(t, ws, mcode) <==> c in t && c.ws != ws && c.mcode != mcode
  {
    var u := t;
    if HasMcode(t, mcode) {
      var holder := ByMcode(t, mcode);
      u := Remove(t, holder.ws);
      RemoveMembers(t, holder.ws);
      RemoveKeepsTable(t, holder.ws);
      forall c | c in t && c.mcode == mcode
        ensures c == holder
      {
        SameMcodeSameClient(t, c, holder);
      }
      forall c | c in t && c.ws == holder.ws
        ensures c == holder
      {
        SameMcodeSameClient(t, c, holder);
      }
    } else {
      forall c | c in t
        ensures c.mcode != mcode
      {
        var i :| 0 <= i < |t| && t[i] == c;
      }
    }
    assert forall c :: c in u <==> c in t && c.mcode != mcode;
    RemoveMembers(u, ws);
    RemoveKeepsTable(u, ws);
  }

  lemma GreetedShape(s: Server, ws: nat, mcode: Str, mscode: string, custom: Str, name: Str, role: nat)
    requires HasWs(s.clients, ws) && mcode != []
    requires |mcode| < INT_LIMIT && |custom| < INT_LIMIT && |name| < INT_LIMIT
    ensures var g := Greeted(s, ws, mcode, mscode, custom, name, role);
            g.ws == ws && g.mcode == mcode && g.mscode == mscode && g.custom == custom && g.name == name
            && g.role == role && WellFormed(g)
  {
  }

  lemma SettingMembers(s: Server, ws: nat, mcode: Str, mscode: string, custom: Str, name: Str)
    requires TableInv(s) && Enabled(s, Setting(ws, mcode, mscode, custom, name)) && RoleOf(s.db, mcode, mscode).Some?
    ensures var s' := OnSetting(s, ws, mcode, mscode, custom, name);
            var g := Greeted(s, ws, mcode, mscode, custom, name, RoleOf(s.db, mcode, mscode).value);
            TableInv(s') && g in s'.clients
            && forall c :: c in s'.clients <==> c == g || (c in s.clients && c.ws != ws && c.mcode != mcode)
  {
    var g := Greeted(s, ws, mcode, mscode, custom, name, RoleOf(s.db, mcode, mscode).value);
    var others := Others(s.clients, ws, mcode);
    GreetedShape(s, ws, mcode, mscode, custom, name, RoleOf(s.db, mcode, mscode).value);
    OthersMembers(s.clients, ws, mcode);
    InsertMembers(others, g);
    InsertKeepsTable(others, g);
    assert OnSetting(s, ws, mcode, mscode, custom, name).clients == Insert(others, g);
  }

  lemma CloseMembers(s: Server, ws: nat)
    requires TableInv(s)
    ensures TableInv(OnClose(s, ws))
    ensures forall c :: c in OnClose(s, ws).clients <==> c in s.clients && c.ws != ws
  {
    RemoveMembers(s.clients, ws);
    RemoveKeepsTable(s.clients, ws);
  }

  lemma OpenMembers(s: Server, ws: nat)
    requires TableInv(s) && !HasWs(s.clients, ws)
    ensures TableInv(s.(clients := Insert(s.clients, NewClient(ws)))) && TableInv(OnOpen(s, ws))
  {
    var s' := s.(clients := Insert(s.clients, NewClient(ws)));
    InsertMembers(s.clients, NewClient(ws));
    InsertKeepsTable(s.clients, NewClient(ws));
    StreamingKeepsTable(s');
  }

  /** A client after an AUTHORITY or CHIEF message. */
  function NewRights(s: Server, e: Event, c: Client): Client
    requires Enabled(s, e) && (e.Authority? || e.Chief?)
  {
    var sender := ByWs(s.clients, e.ws);
    if !sender.chief then c
    else if e.Authority? then
      if c.mcode == e.dst then c.(authority := !ByMcode(s.clients, e.dst).authority) else c
    else if c.mcode == e.dst then c.(chief := true, authority := true)
    else if c.mcode == sender.mcode then c.(chief := false)
    else c
  }

  lemma AuthorityPointwise(s: Server, ws: nat, dst: Str)
    requires Enabled(s, Authority(ws, dst))
    ensures var t, u := s.clients, OnAuthority(s, ws, dst).clients;
            |u| == |t| && forall i :: 0 <= i < |t| ==> u[i] == NewRights(s, Authority(ws, dst), t[i])
  {
  }

  lemma ChiefPointwise(s: Server, ws: nat, dst: Str)
    requires Enabled(s, Chief(ws, dst))
    ensures var t, u := s.clients, OnChief(s, ws, dst).clients;
            |u| == |t| && forall i :: 0 <= i < |t| ==> u[i] == NewRights(s, Chief(ws, dst), t[i])
  {
  }

  lemma RightsPointwise(s: Server, e: Event)
    requires Enabled(s, e) && (e.Authority? || e.Chief?)
    ensures var t, u := s.clients, Step(s, e).clients;
            |u| == |t| && forall i :: 0 <= i < |t| ==> u[i] == NewRights(s, e, t[i])
  {
    if e.Authority? {
      AuthorityPointwise(s, e.ws, e.dst);
    } else {
      ChiefPointwise(s, e.ws, e.dst);
    }
  }

  /** AUTHORITY and CHIEF change rights only. */
  lemma RightsShape(s: Server, e: Event, c: Client)
    requires TableInv(s) && Enabled(s, e) && (e.Authority? || e.Chief?) && c in s.clients
    ensures var d := NewRights(s, e, c);
            d == c.(authority := d.authority, chief := d.chief) && WellFormed(d)
  {
    var sender := ByWs(s.clients, e.ws);
    if sender.chief {
      assert WellFormed(sender) && WellFormed(ByMcode(s.clients, e.dst));
    }
  }

  lemma RightsMembers(s: Server, e: Event)
    requires TableInv(s) && Enabled(s, e) && (e.Authority? || e.Chief?)
    ensures TableInv(Step(s, e))
    ensures forall d :: d in Step(s, e).clients ==> exists c :: c in s.clients && d == NewRights(s, e, c)
    ensures forall c :: c in s.clients ==> NewRights(s, e, c) in Step(s, e).clients
  {
    var t, u := s.clients, Step(s, e).clients;
    RightsPointwise(s, e);
    forall i | 0 <= i < |t|
      ensures t[i].mcode == u[i].mcode && t[i].ws == u[i].ws && WellFormed(u[i])
    {
      RightsShape(s, e, t[i]);
    }
    SameKeysKeepsTable(t, u);
    forall d | d in u
      ensures exists c :: c in t && d == NewRights(s, e, c)
    {
      var i :| 0 <= i < |u| && u[i] == d;
      assert t[i] in t;
    }
    forall c | c in t
      ensures NewRights(s, e, c) in u
    {
      var i :| 0 <= i < |t| && t[i] == c;
      assert u[i] == NewRights(s, e, c);
    }
  }

  lemma SendersKeepTable(s: Server, m: VideoMsg)
    requires TableInv(s)
    ensures TableInv(s.(clients := SendAll(s.clients, m)))
  {
    SendAllMembers(s.clients, m);
  }

  lemma StepKeepsTable(s: Server, e: Event)
    requires TableInv(s) && Enabled(s, e)
    ensures TableInv(Step(s, e))
  {
    match e
    case Open(ws) => OpenMembers(s, ws);
    case Setting(ws, mcode, mscode, custom, name) =>
      if RoleOf(s.db, mcode, mscode).Some? {
        SettingMembers(s, ws, mcode, mscode, custom, name);
      } else {
        CloseMembers(s, ws);
      }
    case Authority(ws, dst) => RightsMembers(s, e);
    case Chief(ws, dst) => RightsMembers(s, e);
    case ChangeMode(ws, wanted) =>
      if OnMode(s, ws, wanted) != s {
        StreamingKeepsTable(StopStreaming(s).(mode := wanted.value));
      }
    case Packet(buf) =>
      SendersKeepTable(s, InitVideo(s.header + buf));
      SendersKeepTable(s, DecodeVideo(buf));
    case Close(ws) => CloseMembers(s, ws);
  }

  // ----- Streaming lifecycle -----

  ghost predicate RunningInv(s: Server) {
    s.running <==> s.clients != []
  }

  /** After every handler the encoder runs iff somebody is connected, also when START comes while it runs. */
  lemma StepKeepsRunning(s: Server, e: Event)
    requires TableInv(s) && Enabled(s, e) && RunningInv(s)
    ensures RunningInv(Step(s, e))
  {
    match e
    case Open(ws) => InsertMembers(s.clients, NewClient(ws));
    case Setting(ws, mcode, mscode, custom, name) =>
      if RoleOf(s.db, mcode, mscode).Some? {
        SettingMembers(s, ws, mcode, mscode, custom, name);
      }
    case Authority(ws, dst) =>
    case Chief(ws, dst) =>
    case ChangeMode(ws, wanted) =>
    case Packet(buf) =>
    case Close(ws) =>
  }

  ghost predicate LoopInv(s: Server) {
    s.imageLoops == if s.mode == Image && s.clients != [] then 1 else 0
  }

  /** A socket opens while the only entry has not been admitted: it is refused, and START is sent again. */
  predicate SecondStart(s: Server, e: Event) {
    e.Open? && s.mode == Image && |s.clients| == 1 && !s.clients[0].Admitted()
  }

  /** Exactly one image loop in image mode, none otherwise, is kept by a step iff it is no second start. */
  lemma StepKeepsLoopsIff(s: Server, e: Event)
    requires TableInv(s) && Enabled(s, e) && LoopInv(s)
    ensures LoopInv(Step(s, e)) <==> !SecondStart(s, e)
  {
    match e
    case Open(ws) =>
      InsertMembers(s.clients, NewClient(ws));
      RefusedIff(s, ws);
    case Setting(ws, mcode, mscode, custom, name) =>
      if RoleOf(s.db, mcode, mscode).Some? {
        SettingMembers(s, ws, mcode, mscode, custom, name);
      }
    case Authority(ws, dst) =>
    case Chief(ws, dst) =>
    case ChangeMode(ws, wanted) =>
    case Packet(buf) =>
    case Close(ws) =>
  }

  /** Two sockets that open before either is admitted: the second is refused and leaves a second image loop behind. */
  lemma SecondStartExample(s: Server, a: nat, b: nat)
    requires Initial(s) && a != b
    ensures var s1 := OnOpen(s, a);
            Enabled(s, Open(a)) && Enabled(s1, Open(b)) && SecondStart(s1, Open(b))
            && OnOpen(s1, b).clients == [NewClient(a)] && OnOpen(s1, b).imageLoops == 2
  {
    assert OnOpen(s, a).clients == [NewClient(a)];
    assert Insert([NewClient(a)], NewClient(b)) == [NewClient(a)];
    assert ClearLogs([NewClient(a)]) == [NewClient(a)];
  }

  /** An open is refused iff some entry has not been admitted yet. */
  lemma RefusedIff(s: Server, ws: nat)
    requires TableInv(s)
    ensures HasMcode(s.clients, []) <==> exists c :: c in s.clients && !c.Admitted()
    ensures |s.clients| == 1 ==> (HasMcode(s.clients, []) <==> !s.clients[0].Admitted())
  {
    if HasMcode(s.clients, []) {
      var i :| 0 <= i < |s.clients| && s.clients[i].mcode == [];
      assert s.clients[i] in s.clients;
    }
    if exists c :: c in s.clients && !c.Admitted() {
      var c :| c in s.clients && !c.Admitted();
      var i :| 0 <= i < |s.clients| && s.clients[i] == c;
    }
    if |s.clients| == 1 {
      assert s.clients[0] in s.clients;
    }
  }

  // ----- Join protocol -----

  function Decoded(packets: seq<seq<byte>>): seq<VideoMsg> {
    seq(|packets|, i requires 0 <= i < |packets| => DecodeVideo(packets[i]))
  }

  function Inits(video: seq<VideoMsg>): nat {
    if video == [] then 0
    else Inits(video[..|video| - 1]) + if video[|video| - 1].InitVideo? then 1 else 0
  }

  /** The packets among the messages. */
  function Payload(video: seq<VideoMsg>): seq<VideoMsg> {
    if video == [] then []
    else Payload(video[..|video| - 1]) + if video[|video| - 1].InitVideo? then [] else [video[|video| - 1]]
  }

  /** INIT with the header, then every packet from the j-th on, and any INIT in between has the same header. */
  ghost predicate JoinedAt(video: seq<VideoMsg>, header: seq<byte>, packets: seq<seq<byte>>, j: nat) {
    && 2 <= j <= |packets|
    && video != [] && video[0] == InitVideo(header)
    && (forall m :: m in video && m.InitVideo? ==> m == InitVideo(header))
    && Payload(video) == Decoded(packets[j..])
  }

  /** INIT with the header, then every packet from the j-th on, and nothing else. */
  ghost predicate OnceJoinedAt(video: seq<VideoMsg>, header: seq<byte>, packets: seq<seq<byte>>, j: nat) {
    2 <= j <= |packets| && video == [InitVideo(header)] + Decoded(packets[j..])
  }

  lemma VideoSnoc(video: seq<VideoMsg>, m: VideoMsg)
    ensures Payload(video + [m]) == Payload(video) + if m.InitVideo? then [] else [m]
    ensures Inits(video + [m]) == Inits(video) + if m.InitVideo? then 1 else 0
  {
    assert (video + [m])[..|video|] == video;
  }

  lemma {:induction false} OneInit(video: seq<VideoMsg>)
    requires video != [] && video[0].InitVideo?
    ensures Inits(video) >= 1
    ensures Inits(video) == 1 ==> video == [video[0]] + Payload(video)
  {
    var n := |video| - 1;
    var first, init, last := video[0], video[..n], video[n];
    if n > 0 {
      OneInit(init);
      if !last.InitVideo? {
        assert [first] + (Payload(init) + [last]) == ([first] + Payload(init)) + [last];
        assert video == init + [last];
      }
    } else {
      assert init == [] && video == [first] + Payload(video);
    }
  }

  lemma OnceJoinedIff(video: seq<VideoMsg>, header: seq<byte>, packets: seq<seq<byte>>, j: nat)
    requires JoinedAt(video, header, packets, j)
    ensures Inits(video) >= 1 && (Inits(video) == 1 ==> OnceJoinedAt(video, header, packets, j))
  {
    OneInit(video);
  }

  /** The one message of whoever joins at the next packet. */
  lemma JustJoined(header: seq<byte>, packets: seq<seq<byte>>)
    requires |packets| >= 2
    ensures JoinedAt([InitVideo(header)], header, packets, |packets|)
    ensures OnceJoinedAt([InitVideo(header)], header, packets, |packets|)
  {
    var video: seq<VideoMsg> := [InitVideo(header)];
    assert packets[|packets|..] == [] && video == [] + video;
    VideoSnoc([], InitVideo(header));
  }

  ghost predicate LogOk(s: Server, c: Client) {
    if c.Admitted() && s.firstCount == 2
    then exists j: nat :: s.captureFrom + 2 <= j && JoinedAt(c.video, s.header, s.packets, j)
    else c.video == []
  }

  /** The header is the first two packets since the capture began, or as many as there are, and fits its buffer. */
  ghost predicate CaptureInv(s: Server) {
    Captured(s.firstCount, s.header, s.packets, s.captureFrom)
  }

  ghost predicate Captured(firstCount: nat, header: seq<byte>, packets: seq<seq<byte>>, from: nat) {
    && from <= |packets|
    && firstCount == (if |packets| - from < 2 then |packets| - from else 2)
    && header == Concat(packets[from..from + firstCount])
    && |header| <= IO_BUFFER_SIZE * firstCount <= HEADER_CAPACITY
  }

  ghost predicate JoinInv(s: Server) {
    CaptureInv(s) && forall c :: c in s.clients ==> LogOk(s, c)
  }

  lemma StreamingKeepsJoin(s: Server)
    requires TableInv(s)
    ensures !s.running ==> JoinInv(StartStreaming(s))
    ensures JoinInv(s) ==> JoinInv(StopStreaming(s))
    ensures s.running && (forall c :: c in s.clients ==> c.video == []) ==> JoinInv(StartStreaming(s))
  {
    StreamingKeepsTable(s);
  }

  lemma PacketKeepsCapture(s: Server, buf: seq<byte>)
    requires CaptureInv(s) && |buf| <= IO_BUFFER_SIZE
    ensures CaptureInv(OnPacket(s, buf))
  {
    var k, n := s.captureFrom, s.firstCount;
    WindowSnoc(s.packets, buf, k, n);
    if n < 2 {
      ConcatSnoc(s.packets[k..k + n], buf);
    }
  }

  lemma WindowSnoc(packets: seq<seq<byte>>, buf: seq<byte>, k: nat, n: nat)
    requires k + n <= |packets|
    ensures (packets + [buf])[k..k + n] == packets[k..k + n]
    ensures k + n == |packets| ==> (packets + [buf])[k..k + n + 1] == packets[k..k + n] + [buf]
  {
  }

  /** Whoever is admitted before the header is complete joins right behind its two packets. */
  lemma JoinsWithHeader(s: Server, buf: seq<byte>, d: Client)
    requires TableInv(s) && JoinInv(s) && s.firstCount == 1 && d in OnPacket(s, buf).clients
    ensures var s' := OnPacket(s, buf);
            if d.Admitted()
            then JoinedAt(d.video, s'.header, s'.packets, s'.captureFrom + 2)
                 && OnceJoinedAt(d.video, s'.header, s'.packets, s'.captureFrom + 2)
            else d.video == []
  {
    var s' := OnPacket(s, buf);
    SendAllMembers(s.clients, InitVideo(s'.header));
    JustJoined(s'.header, s'.packets);
  }

  lemma JoinExtends(video: seq<VideoMsg>, header: seq<byte>, packets: seq<seq<byte>>, j: nat, buf: seq<byte>)
    requires JoinedAt(video, header, packets, j)
    ensures JoinedAt(video + [DecodeVideo(buf)], header, packets + [buf], j)
  {
    VideoSnoc(video, DecodeVideo(buf));
    assert (packets + [buf])[j..] == packets[j..] + [buf];
    assert Decoded((packets + [buf])[j..]) == Decoded(packets[j..]) + [DecodeVideo(buf)];
  }

  lemma JoinRepeats(video: seq<VideoMsg>, header: seq<byte>, packets: seq<seq<byte>>, j: nat)
    requires JoinedAt(video, header, packets, j)
    ensures JoinedAt(video + [InitVideo(header)], header, packets, j)
  {
    VideoSnoc(video, InitVideo(header));
  }

  lemma PacketKeepsJoin(s: Server, buf: seq<byte>)
    requires TableInv(s) && JoinInv(s) && |buf| <= IO_BUFFER_SIZE
    ensures JoinInv(OnPacket(s, buf))
  {
    PacketKeepsCapture(s, buf);
    var s' := OnPacket(s, buf);
    forall d | d in s'.clients
      ensures LogOk(s', d)
    {
      if s.firstCount == 1 {
        JoinsWithHeader(s, buf, d);
      } else if s.firstCount == 2 {
        SendAllMembers(s.clients, DecodeVideo(buf));
        var c :| c in s.clients && d == SendTo(c, DecodeVideo(buf));
        if d.Admitted() {
          assert LogOk(s, c);
          var j: nat :| s.captureFrom + 2 <= j && JoinedAt(c.video, s.header, s.packets, j);
          JoinExtends(c.video, s.header, s.packets, j, buf);
        }
      }
    }
  }

  lemma OpenKeepsJoin(s: Server, ws: nat)
    requires TableInv(s) && RunningInv(s) && JoinInv(s) && !HasWs(s.clients, ws)
    ensures JoinInv(OnOpen(s, ws))
  {
    var s' := s.(clients := Insert(s.clients, NewClient(ws)));
    InsertMembers(s.clients, NewClient(ws));
    OpenMembers(s, ws);
    RefusedIff(s, ws);
    if |s'.clients| == 1 && s.clients != [] {
      assert s.clients[0] in s.clients;
    }
    StreamingKeepsJoin(s');
  }

  lemma CloseKeepsJoin(s: Server, ws: nat)
    requires TableInv(s) && JoinInv(s)
    ensures JoinInv(OnClose(s, ws))
  {
    CloseMembers(s, ws);
  }

  lemma SettingKeepsJoin(s: Server, ws: nat, mcode: Str, mscode: string, custom: Str, name: Str)
    requires TableInv(s) && JoinInv(s) && Enabled(s, Setting(ws, mcode, mscode, custom, name))
    ensures JoinInv(OnSetting(s, ws, mcode, mscode, custom, name))
  {
    if RoleOf(s.db, mcode, mscode).Some? {
      var s' := OnSetting(s, ws, mcode, mscode, custom, name);
      SettingMembers(s, ws, mcode, mscode, custom, name);
      GreetedLog(s, ws, mcode, mscode, custom, name, RoleOf(s.db, mcode, mscode).value);
      forall c | c in s'.clients
        ensures LogOk(s', c)
      {
        SameLog(s, s', c, c);
      }
    } else {
      CloseKeepsJoin(s, ws);
    }
  }

  lemma RightsKeepStream(s: Server, e: Event)
    requires Enabled(s, e) && (e.Authority? || e.Chief?)
    ensures var s' := Step(s, e); s' == s.(clients := s'.clients, db := s'.db)
  {
  }

  lemma RightsKeepJoin(s: Server, e: Event)
    requires TableInv(s) && JoinInv(s) && Enabled(s, e) && (e.Authority? || e.Chief?)
    ensures JoinInv(Step(s, e))
  {
    var s' := Step(s, e);
    RightsMembers(s, e);
    RightsKeepStream(s, e);
    forall d | d in s'.clients
      ensures LogOk(s', d)
    {
      var c :| c in s.clients && d == NewRights(s, e, c);
      RightsShape(s, e, c);
      SameLog(s, s', c, d);
    }
  }

  lemma SameLog(s: Server, s': Server, c: Client, d: Client)
    requires LogOk(s, c) && d == c.(authority := d.authority, chief := d.chief)
    requires s' == s.(clients := s'.clients, db := s'.db, fullRequests := s'.fullRequests)
    ensures LogOk(s', d)
  {
  }

  lemma ModeKeepsJoin(s: Server, ws: nat, wanted: Option<Mode>)
    requires TableInv(s) && JoinInv(s) && HasWs(s.clients, ws)
    ensures JoinInv(OnMode(s, ws, wanted))
  {
    if OnMode(s, ws, wanted) != s {
      StreamingKeepsJoin(StopStreaming(s).(mode := wanted.value));
    }
  }

  /**
   An admitted client has been sent nothing while the header is incomplete, and afterwards INIT with
   the two packets since the capture began followed by every packet since it joined, with nothing
   but the same INIT in between.
   */
  lemma StepKeepsJoin(s: Server, e: Event)
    requires TableInv(s) && RunningInv(s) && Enabled(s, e) && JoinInv(s)
    ensures JoinInv(Step(s, e))
  {
    match e
    case Open(ws) => OpenKeepsJoin(s, ws);
    case Setting(ws, mcode, mscode, custom, name) => SettingKeepsJoin(s, ws, mcode, mscode, custom, name);
    case Authority(ws, dst) => RightsKeepJoin(s, e);
    case Chief(ws, dst) => RightsKeepJoin(s, e);
    case ChangeMode(ws, wanted) => ModeKeepsJoin(s, ws, wanted);
    case Packet(buf) => PacketKeepsJoin(s, buf);
    case Close(ws) => CloseKeepsJoin(s, ws);
  }

  /** A client keeps its join point for as long as the stream lasts. */
  lemma JoinPointStays(s: Server, e: Event, c: Client, j: nat, c': Client)
    requires TableInv(s) && Enabled(s, e) && s.firstCount == 2
    requires c in s.clients && c.Admitted() && JoinedAt(c.video, s.header, s.packets, j)
    requires c' in Step(s, e).clients && c'.ws == c.ws && |Step(s, e).packets| >= |s.packets|
    ensures JoinedAt(c'.video, Step(s, e).header, Step(s, e).packets, j)
    ensures c'.Admitted() && Step(s, e).firstCount == 2
  {
    match e
    case Open(ws) => InsertMembers(s.clients, NewClient(ws)); OneOf(s.clients, c, c');
    case Setting(ws, mcode, mscode, custom, name) =>
      SettingKeepsJoinPoint(s, ws, mcode, mscode, custom, name, c, j, c');
    case Authority(ws, dst) => RightsSpareLogs(s, e, c, c');
    case Chief(ws, dst) => RightsSpareLogs(s, e, c, c');
    case ChangeMode(ws, wanted) => OneOf(s.clients, c, c');
    case Packet(buf) => PacketExtendsJoin(s, buf, c, j, c');
    case Close(ws) => CloseMembers(s, ws); OneOf(s.clients, c, c');
  }

  lemma PacketExtendsJoin(s: Server, buf: seq<byte>, c: Client, j: nat, c': Client)
    requires TableInv(s) && s.firstCount == 2
    requires c in s.clients && c.Admitted() && JoinedAt(c.video, s.header, s.packets, j)
    requires c' in OnPacket(s, buf).clients && c'.ws == c.ws
    ensures c'.Admitted() && JoinedAt(c'.video, s.header, s.packets + [buf], j)
  {
    SendAllMembers(s.clients, DecodeVideo(buf));
    var d :| d in s.clients && c' == SendTo(d, DecodeVideo(buf));
    OneOf(s.clients, c, d);
    JoinExtends(c.video, s.header, s.packets, j, buf);
  }

  lemma OneOf(t: seq<Client>, a: Client, b: Client)
    requires IsTable(t) && a in t
    ensures b in t && a.ws == b.ws ==> a == b
  {
    if b in t && a.ws == b.ws {
      SameMcodeSameClient(t, a, b);
    }
  }

  lemma SettingKeepsJoinPoint(s: Server, ws: nat, mcode: Str, mscode: string, custom: Str, name: Str,
                              c: Client, j: nat, c': Client)
    requires TableInv(s) && Enabled(s, Setting(ws, mcode, mscode, custom, name)) && s.firstCount == 2
    requires c in s.clients && c.Admitted() && JoinedAt(c.video, s.header, s.packets, j)
    requires c' in OnSetting(s, ws, mcode, mscode, custom, name).clients && c'.ws == c.ws
    requires |OnSetting(s, ws, mcode, mscode, custom, name).packets| >= |s.packets|
    ensures c'.Admitted() && JoinedAt(c'.video, s.header, s.packets, j)
  {
    OneOf(s.clients, c, ByWs(s.clients, ws));
    OneOf(s.clients, c, c');
    if RoleOf(s.db, mcode, mscode).Some? {
      SettingMembers(s, ws, mcode, mscode, custom, name);
      GreetedShape(s, ws, mcode, mscode, custom, name, RoleOf(s.db, mcode, mscode).value);
      JoinRepeats(c.video, s.header, s.packets, j);
    } else {
      CloseMembers(s, ws);
    }
  }

  lemma RightsSpareLogs(s: Server, e: Event, c: Client, c': Client)
    requires TableInv(s) && Enabled(s, e) && (e.Authority? || e.Chief?) && c in s.clients
    requires c' in Step(s, e).clients && c'.ws == c.ws
    ensures c'.video == c.video && c'.role == c.role
  {
    RightsMembers(s, e);
    var d :| d in s.clients && c' == NewRights(s, e, d);
    RightsShape(s, e, d);
    OneOf(s.clients, c, d);
  }

  /**
   Whoever is admitted after the header is complete is sent INIT at once and joins at the next
   packet; whoever was admitted before is sent INIT again.
   */
  lemma GreetedLog(s: Server, ws: nat, mcode: Str, mscode: string, custom: Str, name: Str, role: nat)
    requires TableInv(s) && JoinInv(s) && HasWs(s.clients, ws)
    ensures var c, g := ByWs(s.clients, ws), Greeted(s, ws, mcode, mscode, custom, name, role);
            && LogOk(s, g)
            && g.video == (if s.firstCount == 2 then c.video + [InitVideo(s.header)] else c.video)
            && (s.firstCount == 2 && !c.Admitted() ==> OnceJoinedAt(g.video, s.header, s.packets, |s.packets|))
  {
    var c, g := ByWs(s.clients, ws), Greeted(s, ws, mcode, mscode, custom, name, role);
    if s.firstCount == 2 {
      assert LogOk(s, c);
      if c.Admitted() {
        var j: nat :| s.captureFrom + 2 <= j && JoinedAt(c.video, s.header, s.packets, j);
        JoinRepeats(c.video, s.header, s.packets, j);
        assert JoinedAt(g.video, s.header, s.packets, j);
      } else {
        JustJoined(s.header, s.packets);
        assert JoinedAt(g.video, s.header, s.packets, |s.packets|);
      }
    }
  }

  // ----- One INIT a client -----

  ghost predicate SingleInv(s: Server) {
    forall c :: c in s.clients ==> Inits(c.video) <= 1
  }

  /** An admitted socket sends SETTING again, with the header complete. */
  predicate SecondInit(s: Server, e: Event)
    requires Enabled(s, e)
  {
    e.Setting? && ByWs(s.clients, e.ws).Admitted() && RoleOf(s.db, e.mcode, e.mscode).Some? && s.firstCount == 2
  }

  lemma SettingSingleIff(s: Server, ws: nat, mcode: Str, mscode: string, custom: Str, name: Str)
    requires TableInv(s) && JoinInv(s) && SingleInv(s) && Enabled(s, Setting(ws, mcode, mscode, custom, name))
    ensures SingleInv(OnSetting(s, ws, mcode, mscode, custom, name))
            <==> !SecondInit(s, Setting(ws, mcode, mscode, custom, name))
  {
    if RoleOf(s.db, mcode, mscode).Some? {
      var role, c := RoleOf(s.db, mcode, mscode).value, ByWs(s.clients, ws);
      SettingMembers(s, ws, mcode, mscode, custom, name);
      GreetedLog(s, ws, mcode, mscode, custom, name, role);
      VideoSnoc(c.video, InitVideo(s.header));
      assert LogOk(s, c);
      if SecondInit(s, Setting(ws, mcode, mscode, custom, name)) {
        var j: nat :| s.captureFrom + 2 <= j && JoinedAt(c.video, s.header, s.packets, j);
        OnceJoinedIff(c.video, s.header, s.packets, j);
      }
    } else {
      CloseMembers(s, ws);
    }
  }

  lemma PacketKeepsSingle(s: Server, buf: seq<byte>)
    requires TableInv(s) && JoinInv(s) && SingleInv(s)
    ensures SingleInv(OnPacket(s, buf))
  {
    var s' := OnPacket(s, buf);
    SendAllMembers(s.clients, InitVideo(s.header + buf));
    SendAllMembers(s.clients, DecodeVideo(buf));
    forall d | d in s'.clients
      ensures Inits(d.video) <= 1
    {
      if s.firstCount == 1 {
        var c :| c in s.clients && d == SendTo(c, InitVideo(s.header + buf));
        assert LogOk(s, c);
        VideoSnoc([], InitVideo(s.header + buf));
      } else if s.firstCount == 2 {
        var c :| c in s.clients && d == SendTo(c, DecodeVideo(buf));
        VideoSnoc(c.video, DecodeVideo(buf));
      }
    }
  }

  lemma StreamingKeepsSingle(s: Server)
    requires TableInv(s) && SingleInv(s)
    ensures SingleInv(StartStreaming(s))
  {
    StreamingKeepsTable(s);
  }

  lemma RightsKeepSingle(s: Server, e: Event)
    requires TableInv(s) && SingleInv(s) && Enabled(s, e) && (e.Authority? || e.Chief?)
    ensures SingleInv(Step(s, e))
  {
    RightsMembers(s, e);
    forall d | d in Step(s, e).clients
      ensures Inits(d.video) <= 1
    {
      var c :| c in s.clients && d == NewRights(s, e, c);
      RightsShape(s, e, c);
    }
  }

  lemma OpenKeepsSingle(s: Server, ws: nat)
    requires TableInv(s) && SingleInv(s) && !HasWs(s.clients, ws)
    ensures SingleInv(OnOpen(s, ws))
  {
    InsertMembers(s.clients, NewClient(ws));
    OpenMembers(s, ws);
    StreamingKeepsSingle(s.(clients := Insert(s.clients, NewClient(ws))));
  }

  /** A handler sends no client a second INIT of the stream iff it is no second SETTING with the header complete. */
  lemma StepKeepsSingleIff(s: Server, e: Event)
    requires TableInv(s) && JoinInv(s) && SingleInv(s) && Enabled(s, e)
    ensures SingleInv(Step(s, e)) <==> !SecondInit(s, e)
  {
    match e
    case Open(ws) => OpenKeepsSingle(s, ws);
    case Setting(ws, mcode, mscode, custom, name) => SettingSingleIff(s, ws, mcode, mscode, custom, name);
    case Authority(ws, dst) => RightsKeepSingle(s, e);
    case Chief(ws, dst) => RightsKeepSingle(s, e);
    case ChangeMode(ws, wanted) =>
      if OnMode(s, ws, wanted) != s {
        StreamingKeepsSingle(StopStreaming(s).(mode := wanted.value));
      }
    case Packet(buf) => PacketKeepsSingle(s, buf);
    case Close(ws) => CloseMembers(s, ws);
  }

  /** The header is made of the first packets of the stream. */
  ghost predicate HeaderInv(s: Server) {
    && s.firstCount == (if |s.packets| < 2 then |s.packets| else 2)
    && s.header == Concat(s.packets[..s.firstCount])
  }

  /** A socket opens while the only entry has not been admitted and the stream is under way: the capture starts over. */
  predicate LateStart(s: Server, e: Event) {
    e.Open? && |s.clients| == 1 && !s.clients[0].Admitted() && s.packets != []
  }

  lemma PacketKeepsHeader(s: Server, buf: seq<byte>)
    requires HeaderInv(s)
    ensures HeaderInv(OnPacket(s, buf))
  {
    var n := s.firstCount;
    if n < 2 {
      ConcatSnoc(s.packets[..n], buf);
      assert s.packets[..n] + [buf] == (s.packets + [buf])[..n + 1];
    } else {
      assert (s.packets + [buf])[..2] == s.packets[..2];
    }
  }

  /** A handler keeps the header the first two packets of the stream iff it is no such open. */
  lemma StepKeepsHeaderIff(s: Server, e: Event)
    requires TableInv(s) && RunningInv(s) && Enabled(s, e) && HeaderInv(s)
    ensures HeaderInv(Step(s, e)) <==> !LateStart(s, e)
  {
    match e
    case Open(ws) =>
      InsertMembers(s.clients, NewClient(ws));
      RefusedIff(s, ws);
    case Setting(ws, mcode, mscode, custom, name) =>
    case Authority(ws, dst) =>
    case Chief(ws, dst) =>
    case ChangeMode(ws, wanted) =>
    case Packet(buf) => PacketKeepsHeader(s, buf);
    case Close(ws) =>
  }

  /** a opens, two packets, b opens and is refused, two packets: the header is the third and fourth of them. */
  lemma LateStartExample(s: Server, a: nat, b: nat, p: seq<seq<byte>>)
    requires Initial(s) && a != b && |p| == 4
    ensures var s1 := OnPacket(OnPacket(OnOpen(s, a), p[0]), p[1]);
            var s2 := OnPacket(OnPacket(OnOpen(s1, b), p[2]), p[3]);
            s1.header == p[0] + p[1] && LateStart(s1, Open(b))
            && s2.running && s2.packets == p && s2.header == p[2] + p[3] && s2.clients == [NewClient(a)]
  {
    var c := NewClient(a);
    var s0 := OnOpen(s, a);
    assert s0.clients == [c];
    TwoPackets(s0, c, p[0], p[1]);
    var s1 := OnPacket(OnPacket(s0, p[0]), p[1]);
    assert Insert([c], NewClient(b)) == [c];
    TwoPackets(OnOpen(s1, b), c, p[2], p[3]);
    assert [] + [p[0], p[1]] + [p[2], p[3]] == p;
  }

  lemma TwoPackets(s: Server, c: Client, p: seq<byte>, q: seq<byte>)
    requires s.clients == [c] && !c.Admitted() && s.firstCount == 0 && s.header == []
    ensures OnPacket(OnPacket(s, p), q) == s.(firstCount := 2, header := p + q, packets := s.packets + [p, q])
  {
    assert SendAll([c], InitVideo(p + q)) == [c] && [] + p + q == p + q;
    assert s.packets + [p] + [q] == s.packets + [p, q];
  }

  /** The member admitted after that is sent INIT with those two packets. */
  lemma LateStartInit(s: Server, ws: nat, mcode: Str, mscode: string)
    requires s.clients == [NewClient(ws)] && s.firstCount == 2
    requires mcode != [] && |mcode| < INT_LIMIT && RoleOf(s.db, mcode, mscode).Some?
    ensures Enabled(s, Setting(ws, mcode, mscode, [], []))
    ensures var s' := OnSetting(s, ws, mcode, mscode, [], []);
            HasWs(s'.clients, ws) && ByWs(s'.clients, ws).video == [InitVideo(s.header)]
  {
    var c := NewClient(ws);
    assert s.clients[0] == c && s.clients[1..] == [];
    assert !HasMcode(s.clients, mcode);
    assert Remove(s.clients, ws) == [];
    var g := Greeted(s, ws, mcode, mscode, [], [], RoleOf(s.db, mcode, mscode).value);
    assert Insert([], g) == [g] && [g][0].ws == ws;
  }

  // ----- Rights in memory and in the database -----

  ghost predicate RightsMatch(db: Db, c: Client) {
    c.Admitted() ==>
      var role := RoleOf(db, c.mcode, c.mscode);
      role.Some? && (c.chief <==> role.value == 0) && (c.authority <==> role.value <= 1)
  }

  ghost predicate Agree(s: Server) {
    forall c :: c in s.clients ==> RightsMatch(s.db, c)
  }

  /**
   AUTHORITY for somebody who is not chief; CHIEF within one meeting, for somebody who already is
   chief or who is not admitted; SETTING with a role that sets both flags, unless none is set.
   */
  predicate Considerate(s: Server, e: Event)
    requires Enabled(s, e)
  {
    match e
    case Authority(ws, dst) => ByWs(s.clients, ws).chief ==> !ByMcode(s.clients, dst).chief
    case Chief(ws, dst) =>
      var c := ByWs(s.clients, ws);
      c.chief ==>
        var d := ByMcode(s.clients, dst);
        !d.Admitted() || MeetingOf(d.mscode) == MeetingOf(c.mscode) || d.chief
    case Setting(ws, mcode, mscode, _, _) =>
      var c := ByWs(s.clients, ws);
      match RoleOf(s.db, mcode, mscode) {
        case None => true
        case Some(role) => role <= 2 || (!c.authority && !c.chief)
      }
    case _ => true
  }

  lemma AuthorityAgreesIff(s: Server, ws: nat, dst: Str)
    requires TableInv(s) && Enabled(s, Authority(ws, dst)) && Agree(s) && OneMemberPerNumber(s.db)
    requires ByWs(s.clients, ws).chief
    ensures Agree(OnAuthority(s, ws, dst)) <==> !ByMcode(s.clients, dst).chief
  {
    var e := Authority(ws, dst);
    var d := ByMcode(s.clients, dst);
    var role := if d.authority then 2 else 1;
    var s' := OnAuthority(s, ws, dst);
    RightsMembers(s, e);
    assert s'.db == UpdateRole(s.db, dst, d.mscode, role);
    UpdateSeenBy(s.db, dst, d.mscode, role, dst, d.mscode);
    if d.chief {
      assert NewRights(s, e, d) in s'.clients && !RightsMatch(s'.db, NewRights(s, e, d));
    } else {
      forall c' | c' in s'.clients
        ensures RightsMatch(s'.db, c')
      {
        var c :| c in s.clients && c' == NewRights(s, e, c);
        UpdateSeenBy(s.db, dst, d.mscode, role, c.mcode, c.mscode);
        if c.mcode == dst {
          SameMcodeSameClient(s.clients, c, d);
        }
      }
    }
  }

  lemma ChiefSeenBy(db: Db, src: Str, dst: Str, mscode: string, other: Str, otherMs: string)
    requires OneMemberPerNumber(db)
    ensures RoleOf(ChangeChief(db, src, dst, mscode), other, otherMs)
            == if MeetingOf(otherMs) != MeetingOf(mscode) then RoleOf(db, other, otherMs)
               else if other == dst && RoleOf(db, dst, mscode).Some? then Some(0)
               else if other == src && RoleOf(db, src, mscode).Some? then Some(1)
               else RoleOf(db, other, otherMs)
  {
    var db1 := UpdateRole(db, src, mscode, 1);
    UpdateSeenBy(db, src, mscode, 1, other, otherMs);
    UpdateSeenBy(db, src, mscode, 1, dst, mscode);
    UpdateSeenBy(db1, dst, mscode, 0, other, otherMs);
  }

  lemma ChiefAgreesIff(s: Server, ws: nat, dst: Str)
    requires TableInv(s) && Enabled(s, Chief(ws, dst)) && Agree(s) && OneMemberPerNumber(s.db)
    requires ByWs(s.clients, ws).chief
    ensures Agree(OnChief(s, ws, dst)) <==> Considerate(s, Chief(ws, dst))
  {
    var e := Chief(ws, dst);
    var src, d := ByWs(s.clients, ws), ByMcode(s.clients, dst);
    var s' := OnChief(s, ws, dst);
    RightsMembers(s, e);
    if Considerate(s, e) {
      forall c' | c' in s'.clients
        ensures RightsMatch(s'.db, c')
      {
        var c :| c in s.clients && c' == NewRights(s, e, c);
        ChiefSeenBy(s.db, src.mcode, dst, src.mscode, c.mcode, c.mscode);
        if c.mcode == dst {
          SameMcodeSameClient(s.clients, c, d);
        } else if c.mcode == src.mcode {
          SameMcodeSameClient(s.clients, c, src);
        }
        SameMeetingSameRow(s.db, c.mcode, c.mscode, src.mscode);
      }
    } else {
      ChiefSeenBy(s.db, src.mcode, dst, src.mscode, dst, d.mscode);
      assert NewRights(s, e, d) in s'.clients && !RightsMatch(s'.db, NewRights(s, e, d));
    }
  }

  lemma SameMeetingSameRow(db: Db, mcode: Str, a: string, b: string)
    ensures MeetingOf(a) == MeetingOf(b) ==> RoleOf(db, mcode, a) == RoleOf(db, mcode, b)
  {
  }

  lemma OpenAgrees(s: Server, ws: nat)
    requires TableInv(s) && Agree(s) && !HasWs(s.clients, ws)
    ensures Agree(OnOpen(s, ws)) && OnOpen(s, ws).db == s.db
  {
    InsertMembers(s.clients, NewClient(ws));
    OpenMembers(s, ws);
    StreamingAgrees(s.(clients := Insert(s.clients, NewClient(ws))));
  }

  lemma StreamingAgrees(s: Server)
    requires TableInv(s) && Agree(s)
    ensures Agree(StartStreaming(s))
  {
    StreamingKeepsTable(s);
  }

  lemma SettingAgreesIff(s: Server, ws: nat, mcode: Str, mscode: string, custom: Str, name: Str)
    requires TableInv(s) && Agree(s) && Enabled(s, Setting(ws, mcode, mscode, custom, name))
    ensures Agree(OnSetting(s, ws, mcode, mscode, custom, name))
            <==> Considerate(s, Setting(ws, mcode, mscode, custom, name))
    ensures OnSetting(s, ws, mcode, mscode, custom, name).db == s.db
  {
    if RoleOf(s.db, mcode, mscode).Some? {
      SettingMembers(s, ws, mcode, mscode, custom, name);
      GreetedRights(s, ws, mcode, mscode, custom, name);
    } else {
      CloseMembers(s, ws);
    }
  }

  lemma GreetedRights(s: Server, ws: nat, mcode: Str, mscode: string, custom: Str, name: Str)
    requires Enabled(s, Setting(ws, mcode, mscode, custom, name)) && RoleOf(s.db, mcode, mscode).Some?
    ensures RightsMatch(s.db, Greeted(s, ws, mcode, mscode, custom, name, RoleOf(s.db, mcode, mscode).value))
            <==> Considerate(s, Setting(ws, mcode, mscode, custom, name))
  {
  }

  lemma ModeAgrees(s: Server, ws: nat, wanted: Option<Mode>)
    requires TableInv(s) && Agree(s) && HasWs(s.clients, ws)
    ensures Agree(OnMode(s, ws, wanted)) && OnMode(s, ws, wanted).db == s.db
  {
    if OnMode(s, ws, wanted) != s {
      StreamingAgrees(StopStreaming(s).(mode := wanted.value));
    }
  }

  lemma PacketAgrees(s: Server, buf: seq<byte>)
    requires TableInv(s) && Agree(s)
    ensures Agree(OnPacket(s, buf)) && OnPacket(s, buf).db == s.db
  {
    SendAllMembers(s.clients, InitVideo(s.header + buf));
    SendAllMembers(s.clients, DecodeVideo(buf));
  }

  /** A handler keeps memory and database in agreement iff it is considerate. */
  lemma StepAgreesIff(s: Server, e: Event)
    requires TableInv(s) && Enabled(s, e) && Agree(s) && OneMemberPerNumber(s.db)
    ensures Agree(Step(s, e)) <==> Considerate(s, e)
    ensures OneMemberPerNumber(Step(s, e).db)
  {
    match e
    case Open(ws) => OpenAgrees(s, ws);
    case Setting(ws, mcode, mscode, custom, name) => SettingAgreesIff(s, ws, mcode, mscode, custom, name);
    case Authority(ws, dst) =>
      if ByWs(s.clients, ws).chief {
        AuthorityAgreesIff(s, ws, dst);
      }
    case Chief(ws, dst) =>
      if ByWs(s.clients, ws).chief {
        ChiefAgreesIff(s, ws, dst);
      }
    case ChangeMode(ws, wanted) => ModeAgrees(s, ws, wanted);
    case Packet(buf) => PacketAgrees(s, buf);
    case Close(ws) => CloseMembers(s, ws);
  }

  /** No handler creates a second chief row in a meeting. */
  lemma StepKeepsOneChiefRow(s: Server, e: Event)
    requires TableInv(s) && Enabled(s, e) && Agree(s) && OneMemberPerNumber(s.db) && OneChiefRow(s.db)
    ensures OneChiefRow(Step(s, e).db)
  {
    if e.Chief? && ByWs(s.clients, e.ws).chief {
      var c := ByWs(s.clients, e.ws);
      ChangeChiefKeepsOneChief(s.db, c.mcode, e.dst, c.mscode);
    }
  }

  /** With one chief row in each meeting, a meeting has at most one connected chief. */
  lemma AtMostOneChief(s: Server, a: Client, b: Client)
    requires TableInv(s) && Agree(s) && OneMemberPerNumber(s.db) && OneChiefRow(s.db)
    requires a in s.clients && b in s.clients && a.Admitted() && b.Admitted() && a.chief && b.chief
    requires MeetingOf(a.mscode) == MeetingOf(b.mscode)
    ensures a == b
  {
    assert RowOf(s.db, a.mcode, a.mscode).value == RowOf(s.db, b.mcode, b.mscode).value;
    SameMcodeSameClient(s.clients, a, b);
  }

  // ----- Whole runs -----

  ghost predicate Initial(s: Server) {
    && s.clients == [] && s.mode == Image && !s.running && s.imageLoops == 0
    && s.firstCount == 0 && s.header == [] && s.packets == [] && s.captureFrom == 0
    && OneMemberPerNumber(s.db)
  }

  ghost predicate IsRun(ss: seq<Server>, es: seq<Event>) {
    && |ss| == |es| + 1
    && Initial(ss[0])
    && forall i :: 0 <= i < |es| ==> Enabled(ss[i], es[i]) && ss[i + 1] == Step(ss[i], es[i])
  }

  /** After every event of every run table, encoder and join protocol are in order. */
  lemma {:induction false} RunInvariants(ss: seq<Server>, es: seq<Event>, n: nat)
    requires IsRun(ss, es) && n <= |es|
    ensures TableInv(ss[n]) && RunningInv(ss[n]) && JoinInv(ss[n])
  {
    if n > 0 {
      RunInvariants(ss, es, n - 1);
      StepKeepsTable(ss[n - 1], es[n - 1]);
      StepKeepsRunning(ss[n - 1], es[n - 1]);
      StepKeepsJoin(ss[n - 1], es[n - 1]);
    }
  }

  /** After every event of a run the header is the first two packets of its stream, iff the run has no late start. */
  lemma RunHeadersIff(ss: seq<Server>, es: seq<Event>)
    requires IsRun(ss, es)
    ensures (forall i :: 0 <= i <= |es| ==> HeaderInv(ss[i]))
            <==> (forall i :: 0 <= i < |es| ==> !LateStart(ss[i], es[i]))
  {
    if forall i :: 0 <= i < |es| ==> !LateStart(ss[i], es[i]) {
      forall i | 0 <= i <= |es|
        ensures HeaderInv(ss[i])
      {
        HeadersUpTo(ss, es, i);
      }
    }
    if forall i :: 0 <= i <= |es| ==> HeaderInv(ss[i]) {
      forall i | 0 <= i < |es|
        ensures !LateStart(ss[i], es[i])
      {
        RunInvariants(ss, es, i);
        assert HeaderInv(ss[i]) && HeaderInv(ss[i + 1]);
        StepKeepsHeaderIff(ss[i], es[i]);
      }
    }
  }

  lemma {:induction false} HeadersUpTo(ss: seq<Server>, es: seq<Event>, n: nat)
    requires IsRun(ss, es) && n <= |es| && forall i :: 0 <= i < n ==> !LateStart(ss[i], es[i])
    ensures HeaderInv(ss[n])
  {
    if n > 0 {
      HeadersUpTo(ss, es, n - 1);
      RunInvariants(ss, es, n - 1);
      StepKeepsHeaderIff(ss[n - 1], es[n - 1]);
    }
  }

  /**
   Up to a late start, everybody admitted has been sent INIT with the first two packets of the stream,
   then every packet since it joined; nothing else until somebody's second INIT.
   */
  lemma RunJoinsFirstTwo(ss: seq<Server>, es: seq<Event>, n: nat, c: Client)
    requires IsRun(ss, es) && n <= |es| && forall i :: 0 <= i < n ==> !LateStart(ss[i], es[i])
    requires c in ss[n].clients && c.Admitted()
    ensures var s := ss[n];
            if |s.packets| < 2 then c.video == []
            else exists j: nat :: JoinedAt(c.video, s.packets[0] + s.packets[1], s.packets, j)
    ensures var s := ss[n];
            |s.packets| >= 2 && (forall i :: 0 <= i < n ==> !SecondInit(ss[i], es[i]))
            ==> exists j: nat :: OnceJoinedAt(c.video, s.packets[0] + s.packets[1], s.packets, j)
  {
    var s := ss[n];
    RunInvariants(ss, es, n);
    HeadersUpTo(ss, es, n);
    assert LogOk(s, c);
    if |s.packets| >= 2 {
      FirstTwo(s);
      var j: nat :| s.captureFrom + 2 <= j && JoinedAt(c.video, s.header, s.packets, j);
      OnceJoinedIff(c.video, s.header, s.packets, j);
      if forall i :: 0 <= i < n ==> !SecondInit(ss[i], es[i]) {
        SinglesUpTo(ss, es, n);
        assert OnceJoinedAt(c.video, s.packets[0] + s.packets[1], s.packets, j);
      }
    }
  }

  lemma FirstTwo(s: Server)
    requires HeaderInv(s) && |s.packets| >= 2
    ensures s.header == s.packets[0] + s.packets[1]
  {
    assert s.packets[..2] == [] + [s.packets[0]] + [s.packets[1]];
    ConcatSnoc([], s.packets[0]);
    ConcatSnoc([s.packets[0]], s.packets[1]);
  }

  /** After every event of a run nobody has been sent INIT of its stream twice, iff nobody's SETTING repeats it. */
  lemma RunSinglesIff(ss: seq<Server>, es: seq<Event>)
    requires IsRun(ss, es)
    ensures (forall i :: 0 <= i <= |es| ==> SingleInv(ss[i]))
            <==> (forall i :: 0 <= i < |es| ==> !SecondInit(ss[i], es[i]))
  {
    if forall i :: 0 <= i < |es| ==> !SecondInit(ss[i], es[i]) {
      forall i | 0 <= i <= |es|
        ensures SingleInv(ss[i])
      {
        SinglesUpTo(ss, es, i);
      }
    }
    if forall i :: 0 <= i <= |es| ==> SingleInv(ss[i]) {
      forall i | 0 <= i < |es|
        ensures !SecondInit(ss[i], es[i])
      {
        RunInvariants(ss, es, i);
        assert SingleInv(ss[i]) && SingleInv(ss[i + 1]);
        StepKeepsSingleIff(ss[i], es[i]);
      }
    }
  }

  lemma {:induction false} SinglesUpTo(ss: seq<Server>, es: seq<Event>, n: nat)
    requires IsRun(ss, es) && n <= |es| && forall i :: 0 <= i < n ==> !SecondInit(ss[i], es[i])
    ensures SingleInv(ss[n])
  {
    if n > 0 {
      SinglesUpTo(ss, es, n - 1);
      RunInvariants(ss, es, n - 1);
      StepKeepsSingleIff(ss[n - 1], es[n - 1]);
    }
  }

  /** The socket is admitted and joined the stream at its j-th packet. */
  ghost predicate JoinedSince(s: Server, ws: nat, j: nat) {
    && s.firstCount == 2 && HasWs(s.clients, ws) && ByWs(s.clients, ws).Admitted()
    && JoinedAt(ByWs(s.clients, ws).video, s.header, s.packets, j)
  }

  lemma JoinedNext(s: Server, e: Event, s': Server, ws: nat, j: nat)
    requires TableInv(s) && Enabled(s, e) && s' == Step(s, e)
    requires JoinedSince(s, ws, j) && HasWs(s'.clients, ws) && |s.packets| <= |s'.packets|
    ensures JoinedSince(s', ws, j)
  {
    JoinPointStays(s, e, ByWs(s.clients, ws), j, ByWs(s'.clients, ws));
  }

  /**
   Between any two points of a stream, through whatever handlers and packets, a socket that stays
   connected keeps its join point: it has been sent exactly the packets from the same j-th on.
   */
  lemma {:induction false} RunJoinPointStays(ss: seq<Server>, es: seq<Event>, i: nat, n: nat, ws: nat, j: nat)
    requires IsRun(ss, es) && i <= n <= |es| && JoinedSince(ss[i], ws, j)
    requires forall k :: i < k <= n ==> HasWs(ss[k].clients, ws) && |ss[k - 1].packets| <= |ss[k].packets|
    ensures JoinedSince(ss[n], ws, j)
    decreases n
  {
    if i < n {
      RunJoinPointStays(ss, es, i, n - 1, ws, j);
      RunInvariants(ss, es, n - 1);
      JoinedNext(ss[n - 1], es[n - 1], ss[n], ws, j);
    }
  }

  /** After every event of a run there is exactly one image loop where due, iff the run has no second start. */
  lemma RunLoopsIff(ss: seq<Server>, es: seq<Event>)
    requires IsRun(ss, es)
    ensures (forall i :: 0 <= i <= |es| ==> LoopInv(ss[i]))
            <==> (forall i :: 0 <= i < |es| ==> !SecondStart(ss[i], es[i]))
  {
    if forall i :: 0 <= i < |es| ==> !SecondStart(ss[i], es[i]) {
      forall i | 0 <= i <= |es|
        ensures LoopInv(ss[i])
      {
        LoopsUpTo(ss, es, i);
      }
    }
    if forall i :: 0 <= i <= |es| ==> LoopInv(ss[i]) {
      forall i | 0 <= i < |es|
        ensures !SecondStart(ss[i], es[i])
      {
        RunInvariants(ss, es, i);
        assert LoopInv(ss[i]) && LoopInv(ss[i + 1]);
        StepKeepsLoopsIff(ss[i], es[i]);
      }
    }
  }

  lemma {:induction false} LoopsUpTo(ss: seq<Server>, es: seq<Event>, n: nat)
    requires IsRun(ss, es) && n <= |es| && forall i :: 0 <= i < n ==> !SecondStart(ss[i], es[i])
    ensures LoopInv(ss[n])
  {
    if n > 0 {
      LoopsUpTo(ss, es, n - 1);
      RunInvariants(ss, es, n - 1);
      StepKeepsLoopsIff(ss[n - 1], es[n - 1]);
    }
  }

  ghost predicate ConsiderateRun(ss: seq<Server>, es: seq<Event>)
    requires IsRun(ss, es)
  {
    forall i :: 0 <= i < |es| ==> Considerate(ss[i], es[i])
  }

  /** After every event of a run the rights in memory are those of the database, iff every event is considerate. */
  lemma RunAgreesIff(ss: seq<Server>, es: seq<Event>)
    requires IsRun(ss, es)
    ensures (forall i :: 0 <= i <= |es| ==> Agree(ss[i])) <==> ConsiderateRun(ss, es)
  {
    if ConsiderateRun(ss, es) {
      forall i | 0 <= i <= |es|
        ensures Agree(ss[i])
      {
        RunAgrees(ss, es, i);
      }
    }
    if forall i :: 0 <= i <= |es| ==> Agree(ss[i]) {
      forall i | 0 <= i < |es|
        ensures Considerate(ss[i], es[i])
      {
        RunInvariants(ss, es, i);
        RunNumbers(ss, es, i);
        assert Agree(ss[i]) && Agree(ss[i + 1]);
        StepAgreesIff(ss[i], es[i]);
      }
    }
  }

  /** No event renumbers a member. */
  lemma {:induction false} RunNumbers(ss: seq<Server>, es: seq<Event>, n: nat)
    requires IsRun(ss, es) && n <= |es|
    ensures OneMemberPerNumber(ss[n].db)
  {
    if n > 0 {
      RunNumbers(ss, es, n - 1);
      StepKeepsMembers(ss[n - 1], es[n - 1]);
    }
  }

  lemma StepKeepsMembers(s: Server, e: Event)
    requires Enabled(s, e)
    ensures Step(s, e).db.members == s.db.members
  {
  }

  /** In a considerate run memory and database agree; if no meeting starts with two chief rows, none ever has two. */
  lemma {:induction false} RunAgrees(ss: seq<Server>, es: seq<Event>, n: nat)
    requires IsRun(ss, es) && n <= |es| && ConsiderateRun(ss, es)
    ensures Agree(ss[n]) && OneMemberPerNumber(ss[n].db)
    ensures OneChiefRow(ss[0].db) ==> OneChiefRow(ss[n].db)
  {
    if n > 0 {
      RunAgrees(ss, es, n - 1);
      RunInvariants(ss, es, n - 1);
      StepAgreesIff(ss[n - 1], es[n - 1]);
      if OneChiefRow(ss[0].db) {
        StepKeepsOneChiefRow(ss[n - 1], es[n - 1]);
      }
    }
  }

  /** In a considerate run in which no meeting starts with two chief rows, no meeting ever has two connected chiefs. */
  lemma RunAtMostOneChief(ss: seq<Server>, es: seq<Event>, n: nat, a: Client, b: Client)
    requires IsRun(ss, es) && n <= |es| && ConsiderateRun(ss, es) && OneChiefRow(ss[0].db)
    requires a in ss[n].clients && b in ss[n].clients && a.Admitted() && b.Admitted() && a.chief && b.chief
    requires MeetingOf(a.mscode) == MeetingOf(b.mscode)
    ensures a == b
  {
    RunInvariants(ss, es, n);
    RunAgrees(ss, es, n);
    AtMostOneChief(ss[n], a, b);
  }

  /** The message a newly admitted client gets reads back as exactly who is connected, on every run. */
  lemma RunMemberList(ss: seq<Server>, es: seq<Event>, n: nat)
    requires IsRun(ss, es) && n <= |es|
    ensures AllFit(ss[n].clients)
    ensures Parse([CONNECTED_MEMBER_INFO] + Records(ss[n].clients)) == Some(Members(ss[n].clients))
    ensures var tail := Allocation(ss[n].clients) - (1 + |Records(ss[n].clients)|); tail == 0 || tail == RECORD_HEADER
  {
    RunInvariants(ss, es, n);
    TableFits(ss[n]);
    MemberListRoundTrip(ss[n].clients);
  }

  lemma TableFits(s: Server)
    requires TableInv(s)
    ensures AllFit(s.clients)
    ensures forall c :: c in s.clients && !c.Admitted() ==> c.mcode == []
  {
    forall i | 0 <= i < |s.clients|
      ensures Fits(s.clients[i])
    {
      assert s.clients[i] in s.clients;
    }
  }

  /** A refused socket stays out of the table, and its close is not described: an open is refused iff somebody waits. */
  lemma RefusedCannotClose(s: Server, ws: nat)
    requires TableInv(s) && Enabled(s, Open(ws))
    ensures Enabled(OnOpen(s, ws), Close(ws)) <==> forall c :: c in s.clients ==> c.Admitted()
  {
    var c := NewClient(ws);
    RefusedIff(s, ws);
    InsertMembers(s.clients, c);
    OpenMembers(s, ws);
    var s' := s.(clients := Insert(s.clients, c));
    StreamingKeepsTable(s');
    if HasMcode(s.clients, []) {
      NotThere(s.clients, OnOpen(s, ws).clients, ws);
    } else {
      assert c == c.(video := []);
      Found(OnOpen(s, ws).clients, c);
    }
  }

  // ----- Whose mouse and keyboard messages pass -----

  /** The flag the messages are tested for is set iff the socket is admitted with role 0 or 1. */
  ghost predicate InputMatch(db: Db, c: Client) {
    var role := RoleOf(db, c.mcode, c.mscode);
    c.authority <==> c.Admitted() && role.Some? && role.value <= 1
  }

  ghost predicate InputExact(s: Server) {
    forall c :: c in s.clients ==> InputMatch(s.db, c)
  }

  /** Whoever is admitted still has its row. */
  ghost predicate HaveRows(s: Server) {
    forall c :: c in s.clients && c.Admitted() ==> RoleOf(s.db, c.mcode, c.mscode).Some?
  }

  /** A chief's CHIEF names a socket that has not been admitted. */
  predicate ChiefToWaiting(s: Server, e: Event)
    requires Enabled(s, e)
  {
    e.Chief? && ByWs(s.clients, e.ws).chief && !ByMcode(s.clients, e.dst).Admitted()
  }

  /**
   A chief's CHIEF names an admitted socket: itself, or another one while it has authority, which
   belongs to its own meeting or has authority already. SETTING gives a role that sets the flag,
   or comes from a socket without it.
   */
  predicate InputSafe(s: Server, e: Event)
    requires Enabled(s, e)
  {
    match e
    case Chief(ws, dst) =>
      var c := ByWs(s.clients, ws);
      c.chief ==>
        var d := ByMcode(s.clients, dst);
        d.Admitted()
        && (dst == c.mcode || (c.authority && (MeetingOf(d.mscode) == MeetingOf(c.mscode) || d.authority)))
    case Setting(ws, mcode, mscode, _, _) =>
      var role := RoleOf(s.db, mcode, mscode);
      role.Some? ==> role.value <= 2 || !ByWs(s.clients, ws).authority
    case _ => true
  }

  lemma AuthorityKeepsInput(s: Server, ws: nat, dst: Str)
    requires TableInv(s) && HaveRows(s) && InputExact(s) && OneMemberPerNumber(s.db)
    requires Enabled(s, Authority(ws, dst)) && ByWs(s.clients, ws).chief
    ensures HaveRows(OnAuthority(s, ws, dst)) && InputExact(OnAuthority(s, ws, dst))
  {
    var e, d, s' := Authority(ws, dst), ByMcode(s.clients, dst), OnAuthority(s, ws, dst);
    RightsMembers(s, e);
    forall c' | c' in s'.clients
      ensures InputMatch(s'.db, c') && (c'.Admitted() ==> RoleOf(s'.db, c'.mcode, c'.mscode).Some?)
    {
      var c :| c in s.clients && c' == NewRights(s, e, c);
      UpdateSeenBy(s.db, dst, d.mscode, if d.authority then 2 else 1, c.mcode, c.mscode);
      if c.mcode == dst {
        SameMcodeSameClient(s.clients, c, d);
      }
    }
  }

  /** A socket after a chief's CHIEF; only the two named by it can fail to match. */
  lemma ChiefInputOf(s: Server, ws: nat, dst: Str, c: Client)
    requires TableInv(s) && HaveRows(s) && InputExact(s) && OneMemberPerNumber(s.db)
    requires Enabled(s, Chief(ws, dst)) && ByWs(s.clients, ws).chief && c in s.clients
    ensures var src, d := ByWs(s.clients, ws), ByMcode(s.clients, dst);
            InputMatch(OnChief(s, ws, dst).db, NewRights(s, Chief(ws, dst), c))
            <==> if c == d then d.Admitted() && (MeetingOf(d.mscode) == MeetingOf(src.mscode) || d.authority)
                 else c == src ==> c.authority
    ensures c.Admitted() ==> RoleOf(OnChief(s, ws, dst).db, c.mcode, c.mscode).Some?
  {
    var src, d := ByWs(s.clients, ws), ByMcode(s.clients, dst);
    ChiefSeenBy(s.db, src.mcode, dst, src.mscode, c.mcode, c.mscode);
    SameMeetingSameRow(s.db, c.mcode, c.mscode, src.mscode);
    if c.mcode == dst {
      SameMcodeSameClient(s.clients, c, d);
    }
    if c.mcode == src.mcode {
      SameMcodeSameClient(s.clients, c, src);
    }
  }

  lemma ChiefKeepsInputIff(s: Server, ws: nat, dst: Str)
    requires TableInv(s) && HaveRows(s) && InputExact(s) && OneMemberPerNumber(s.db)
    requires Enabled(s, Chief(ws, dst)) && ByWs(s.clients, ws).chief
    ensures InputExact(OnChief(s, ws, dst)) <==> InputSafe(s, Chief(ws, dst))
  {
    var e, s' := Chief(ws, dst), OnChief(s, ws, dst);
    var src, d := ByWs(s.clients, ws), ByMcode(s.clients, dst);
    RightsMembers(s, e);
    ChiefSafeIff(s, ws, dst);
    if InputSafe(s, e) {
      forall c' | c' in s'.clients
        ensures InputMatch(s'.db, c')
      {
        var c :| c in s.clients && c' == NewRights(s, e, c);
        ChiefInputOf(s, ws, dst, c);
      }
    } else if InputMatch(s'.db, NewRights(s, e, src)) {
      assert NewRights(s, e, d) in s'.clients;
    } else {
      assert NewRights(s, e, src) in s'.clients;
    }
  }

  /** Only sender and destination matter. */
  lemma ChiefSafeIff(s: Server, ws: nat, dst: Str)
    requires TableInv(s) && HaveRows(s) && InputExact(s) && OneMemberPerNumber(s.db)
    requires Enabled(s, Chief(ws, dst)) && ByWs(s.clients, ws).chief
    ensures var e, db := Chief(ws, dst), OnChief(s, ws, dst).db;
            InputSafe(s, e) <==> InputMatch(db, NewRights(s, e, ByWs(s.clients, ws)))
                                 && InputMatch(db, NewRights(s, e, ByMcode(s.clients, dst)))
  {
    var src, d := ByWs(s.clients, ws), ByMcode(s.clients, dst);
    ChiefInputOf(s, ws, dst, src);
    ChiefInputOf(s, ws, dst, d);
    if src.mcode == dst {
      SameMcodeSameClient(s.clients, src, d);
    }
  }

  lemma ChiefKeepsRows(s: Server, ws: nat, dst: Str)
    requires TableInv(s) && HaveRows(s) && InputExact(s) && OneMemberPerNumber(s.db)
    requires Enabled(s, Chief(ws, dst)) && ByWs(s.clients, ws).chief
    ensures HaveRows(OnChief(s, ws, dst))
  {
    var e, s' := Chief(ws, dst), OnChief(s, ws, dst);
    RightsMembers(s, e);
    forall c' | c' in s'.clients && c'.Admitted()
      ensures RoleOf(s'.db, c'.mcode, c'.mscode).Some?
    {
      var c :| c in s.clients && c' == NewRights(s, e, c);
      RightsShape(s, e, c);
      ChiefInputOf(s, ws, dst, c);
    }
  }

  lemma StreamingKeepsInput(s: Server)
    requires TableInv(s) && HaveRows(s) && InputExact(s)
    ensures HaveRows(StartStreaming(s)) && InputExact(StartStreaming(s))
  {
    StreamingKeepsTable(s);
  }

  lemma OpenKeepsInput(s: Server, ws: nat)
    requires TableInv(s) && HaveRows(s) && InputExact(s) && !HasWs(s.clients, ws)
    ensures HaveRows(OnOpen(s, ws)) && InputExact(OnOpen(s, ws))
  {
    InsertMembers(s.clients, NewClient(ws));
    OpenMembers(s, ws);
    StreamingKeepsInput(s.(clients := Insert(s.clients, NewClient(ws))));
  }

  lemma SettingKeepsInputIff(s: Server, ws: nat, mcode: Str, mscode: string, custom: Str, name: Str)
    requires TableInv(s) && HaveRows(s) && InputExact(s) && Enabled(s, Setting(ws, mcode, mscode, custom, name))
    ensures HaveRows(OnSetting(s, ws, mcode, mscode, custom, name))
    ensures InputExact(OnSetting(s, ws, mcode, mscode, custom, name))
            <==> InputSafe(s, Setting(ws, mcode, mscode, custom, name))
  {
    if RoleOf(s.db, mcode, mscode).Some? {
      SettingMembers(s, ws, mcode, mscode, custom, name);
      var role := RoleOf(s.db, mcode, mscode).value;
      assert InputMatch(s.db, Greeted(s, ws, mcode, mscode, custom, name, role))
             <==> InputSafe(s, Setting(ws, mcode, mscode, custom, name));
    } else {
      CloseMembers(s, ws);
    }
  }

  lemma PacketKeepsInput(s: Server, buf: seq<byte>)
    requires TableInv(s) && HaveRows(s) && InputExact(s)
    ensures HaveRows(OnPacket(s, buf)) && InputExact(OnPacket(s, buf))
  {
    SendAllMembers(s.clients, InitVideo(s.header + buf));
    SendAllMembers(s.clients, DecodeVideo(buf));
  }

  /** A handler keeps the flag set for exactly the admitted sockets with role 0 or 1, iff it is safe in that sense. */
  lemma StepKeepsInputIff(s: Server, e: Event)
    requires TableInv(s) && Enabled(s, e) && HaveRows(s) && InputExact(s) && OneMemberPerNumber(s.db)
    ensures InputExact(Step(s, e)) <==> InputSafe(s, e)
    ensures HaveRows(Step(s, e))
  {
    match e
    case Open(ws) => OpenKeepsInput(s, ws);
    case Setting(ws, mcode, mscode, custom, name) => SettingKeepsInputIff(s, ws, mcode, mscode, custom, name);
    case Authority(ws, dst) =>
      if ByWs(s.clients, ws).chief {
        AuthorityKeepsInput(s, ws, dst);
      }
    case Chief(ws, dst) =>
      if ByWs(s.clients, ws).chief {
        ChiefKeepsInputIff(s, ws, dst);
        ChiefKeepsRows(s, ws, dst);
      }
    case ChangeMode(ws, wanted) =>
      if OnMode(s, ws, wanted) != s {
        StreamingKeepsInput(StopStreaming(s).(mode := wanted.value));
      }
    case Packet(buf) => PacketKeepsInput(s, buf);
    case Close(ws) => CloseMembers(s, ws);
  }

  /**
   After every event of a run mouse and keyboard messages pass exactly from admitted sockets with
   role 0 or 1, iff every event is safe in that sense.
   */
  lemma InputAllowedIff(ss: seq<Server>, es: seq<Event>)
    requires IsRun(ss, es)
    ensures (forall i :: 0 <= i <= |es| ==> InputExact(ss[i]))
            <==> (forall i :: 0 <= i < |es| ==> InputSafe(ss[i], es[i]))
  {
    if forall i :: 0 <= i < |es| ==> InputSafe(ss[i], es[i]) {
      forall i | 0 <= i <= |es|
        ensures InputExact(ss[i])
      {
        InputUpTo(ss, es, i);
      }
    }
    if forall i :: 0 <= i <= |es| ==> InputExact(ss[i]) {
      forall i | 0 <= i < |es|
        ensures InputSafe(ss[i], es[i])
      {
        ExactUpTo(ss, es, i);
        assert InputExact(ss[i]) && InputExact(ss[i + 1]);
        StepKeepsInputIff(ss[i], es[i]);
      }
    }
  }

  lemma {:induction false} InputUpTo(ss: seq<Server>, es: seq<Event>, n: nat)
    requires IsRun(ss, es) && n <= |es| && forall i :: 0 <= i < n ==> InputSafe(ss[i], es[i])
    ensures InputExact(ss[n]) && HaveRows(ss[n])
  {
    if n > 0 {
      InputUpTo(ss, es, n - 1);
      RunInvariants(ss, es, n - 1);
      RunNumbers(ss, es, n - 1);
      StepKeepsInputIff(ss[n - 1], es[n - 1]);
    }
  }

  lemma {:induction false} ExactUpTo(ss: seq<Server>, es: seq<Event>, n: nat)
    requires IsRun(ss, es) && n <= |es| && forall i :: 0 <= i <= n ==> InputExact(ss[i])
    ensures HaveRows(ss[n]) && TableInv(ss[n]) && OneMemberPerNumber(ss[n].db)
  {
    RunInvariants(ss, es, n);
    RunNumbers(ss, es, n);
    if n > 0 {
      ExactUpTo(ss, es, n - 1);
      StepKeepsInputIff(ss[n - 1], es[n - 1]);
    }
  }

  /** In a considerate run that leaves one condition: no chief's CHIEF names a socket that has not been admitted. */
  lemma ConsiderateInputIff(ss: seq<Server>, es: seq<Event>)
    requires IsRun(ss, es) && ConsiderateRun(ss, es)
    ensures (forall i :: 0 <= i <= |es| ==> InputExact(ss[i]))
            <==> (forall i :: 0 <= i < |es| ==> !ChiefToWaiting(ss[i], es[i]))
  {
    InputAllowedIff(ss, es);
    forall i | 0 <= i < |es|
      ensures InputSafe(ss[i], es[i]) <==> !ChiefToWaiting(ss[i], es[i])
    {
      RunAgrees(ss, es, i);
      ConsiderateIsSafe(ss[i], es[i]);
    }
  }

  lemma ConsiderateIsSafe(s: Server, e: Event)
    requires Enabled(s, e) && Agree(s) && Considerate(s, e)
    ensures InputSafe(s, e) <==> !ChiefToWaiting(s, e)
  {
    if e.Chief? && ByWs(s.clients, e.ws).chief {
      assert RightsMatch(s.db, ByWs(s.clients, e.ws)) && RightsMatch(s.db, ByMcode(s.clients, e.dst));
    }
  }

  /**
   The chief a hands its role to b, which has opened and not been admitted: b's messages pass from
   then on, and a has given up its row for nobody's.
   */
  lemma ChiefToWaitingExample(s: Server, a: nat, b: nat)
    requires TableInv(s) && HaveRows(s) && OneMemberPerNumber(s.db) && [] !in s.db.members
    requires HasWs(s.clients, a) && ByWs(s.clients, a).Admitted() && ByWs(s.clients, a).chief
    requires HasWs(s.clients, b) && ByWs(s.clients, b) == NewClient(b)
    ensures Enabled(s, Chief(a, [])) && ChiefToWaiting(s, Chief(a, []))
    ensures var s', c := OnChief(s, a, []), ByWs(s.clients, a);
            NewClient(b).(authority := true, chief := true) in s'.clients
            && c.(chief := false) in s'.clients
            && !InputExact(s')
            && s'.db == UpdateRole(s.db, c.mcode, c.mscode, 1) && RoleOf(s'.db, c.mcode, c.mscode) == Some(1)
  {
    var c, w := ByWs(s.clients, a), ByWs(s.clients, b);
    var e := Chief(a, []);
    Found(s.clients, w);
    assert WellFormed(c);
    RightsMembers(s, e);
    assert NewRights(s, e, w) in OnChief(s, a, []).clients && NewRights(s, e, c) in OnChief(s, a, []).clients;
    UpdateSeenBy(s.db, c.mcode, c.mscode, 1, c.mcode, c.mscode);
  }

  /** A chief's AUTHORITY or CHIEF that names the member, or a CHIEF the member sends as chief. */
  predicate TouchesRow(s: Server, e: Event, mcode: Str)
    requires Enabled(s, e)
  {
    match e
    case Authority(ws, dst) => ByWs(s.clients, ws).chief && dst == mcode
    case Chief(ws, dst) => ByWs(s.clients, ws).chief && (dst == mcode || ByWs(s.clients, ws).mcode == mcode)
    case _ => false
  }

  lemma StepSparesRow(s: Server, e: Event, mcode: Str, mscode: string)
    requires Enabled(s, e) && !TouchesRow(s, e, mcode) && OneMemberPerNumber(s.db)
    ensures RoleOf(Step(s, e).db, mcode, mscode) == RoleOf(s.db, mcode, mscode)
  {
    if e.Authority? && ByWs(s.clients, e.ws).chief {
      var d := ByMcode(s.clients, e.dst);
      UpdateSeenBy(s.db, e.dst, d.mscode, if d.authority then 2 else 1, mcode, mscode);
    } else if e.Chief? && ByWs(s.clients, e.ws).chief {
      var c := ByWs(s.clients, e.ws);
      ChiefSeenBy(s.db, c.mcode, e.dst, c.mscode, mcode, mscode);
    }
  }

  lemma {:induction false} SegmentSparesRow(ss: seq<Server>, es: seq<Event>, i: nat, n: nat, mcode: Str, mscode: string)
    requires IsRun(ss, es) && i <= n <= |es| && forall k :: i <= k < n ==> !TouchesRow(ss[k], es[k], mcode)
    ensures RoleOf(ss[n].db, mcode, mscode) == RoleOf(ss[i].db, mcode, mscode)
    decreases n
  {
    if i < n {
      SegmentSparesRow(ss, es, i, n - 1, mcode, mscode);
      RunNumbers(ss, es, n - 1);
      StepSparesRow(ss[n - 1], es[n - 1], mcode, mscode);
    }
  }

  /**
   Reconnecting restores the same rights: in a considerate run a member admitted at two points for
   the same meeting has the same rights at both, through whatever closes, opens, mode changes and
   messages lie between, as long as no chief touches its row.
   */
  lemma SameRightsWheneverAdmitted(ss: seq<Server>, es: seq<Event>, i: nat, n: nat, c: Client, d: Client)
    requires IsRun(ss, es) && i <= n <= |es| && ConsiderateRun(ss, es)
    requires c in ss[i].clients && d in ss[n].clients && c.Admitted() && d.Admitted()
    requires c.mcode == d.mcode && MeetingOf(c.mscode) == MeetingOf(d.mscode)
    requires forall k :: i <= k < n ==> !TouchesRow(ss[k], es[k], c.mcode)
    ensures c.authority == d.authority && c.chief == d.chief
  {
    RunAgrees(ss, es, i);
    RunAgrees(ss, es, n);
    SegmentSparesRow(ss, es, i, n, c.mcode, c.mscode);
    SameMeetingSameRow(ss[n].db, c.mcode, c.mscode, d.mscode);
  }

  /** A member who closes and comes back while nobody else is waiting to be admitted has the same rights again. */
  lemma ReconnectRestoresRights(s: Server, c: Client, ws: nat, custom: Str, name: Str)
    requires TableInv(s) && Agree(s) && OneMemberPerNumber(s.db)
    requires c in s.clients && c.Admitted()
    requires (forall d :: d in s.clients ==> d.Admitted()) && !HasWs(s.clients, ws)
    requires |custom| < INT_LIMIT && |name| < INT_LIMIT
    ensures var gone := OnClose(s, c.ws);
            Enabled(gone, Open(ws))
            && var back := OnOpen(gone, ws);
               Enabled(back, Setting(ws, c.mcode, c.mscode, custom, name))
               && var s' := OnSetting(back, ws, c.mcode, c.mscode, custom, name);
                  HasMcode(s'.clients, c.mcode)
                  && ByMcode(s'.clients, c.mcode).ws == ws
                  && ByMcode(s'.clients, c.mcode).authority == c.authority
                  && ByMcode(s'.clients, c.mcode).chief == c.chief
  {
    var gone := OnClose(s, c.ws);
    CloseMembers(s, c.ws);
    NotThere(s.clients, gone.clients, ws);
    ComesBack(gone, ws);
    var back := OnOpen(gone, ws);
    GetsRights(back, c.mcode, c.mscode, ws, custom, name);
  }

  lemma ComesBack(s: Server, ws: nat)
    requires TableInv(s) && (forall d :: d in s.clients ==> d.Admitted()) && !HasWs(s.clients, ws)
    ensures var s' := OnOpen(s, ws);
            TableInv(s') && HasWs(s'.clients, ws) && ByWs(s'.clients, ws) == NewClient(ws) && s'.db == s.db
  {
    var c := NewClient(ws);
    RefusedIff(s, ws);
    InsertMembers(s.clients, c);
    OpenMembers(s, ws);
    StreamingKeepsTable(s.(clients := Insert(s.clients, c)));
    assert c == c.(video := []);
    Found(OnOpen(s, ws).clients, c);
  }

  /** Whatever rights the database gives are those the admitted client gets. */
  lemma GetsRights(s: Server, mcode: Str, mscode: string, ws: nat, custom: Str, name: Str)
    requires TableInv(s) && Enabled(s, Setting(ws, mcode, mscode, custom, name)) && RoleOf(s.db, mcode, mscode).Some?
    requires Considerate(s, Setting(ws, mcode, mscode, custom, name))
    ensures var s' := OnSetting(s, ws, mcode, mscode, custom, name);
            HasMcode(s'.clients, mcode) && ByMcode(s'.clients, mcode).ws == ws
            && RightsMatch(s.db, ByMcode(s'.clients, mcode)) && ByMcode(s'.clients, mcode).mscode == mscode
            && ByMcode(s'.clients, mcode).Admitted()
  {
    var role := RoleOf(s.db, mcode, mscode).value;
    SettingMembers(s, ws, mcode, mscode, custom, name);
    GreetedRights(s, ws, mcode, mscode, custom, name);
    GreetedShape(s, ws, mcode, mscode, custom, name, role);
    Found(OnSetting(s, ws, mcode, mscode, custom, name).clients, Greeted(s, ws, mcode, mscode, custom, name, role));
  }

  lemma NotThere(t: seq<Client>, u: seq<Client>, ws: nat)
    requires !HasWs(t, ws) && forall c :: c in u ==> c in t
    ensures !HasWs(u, ws)
  {
    forall i | 0 <= i < |u|
      ensures u[i].ws != ws
    {
      assert u[i] in t;
    }
  }

  lemma Found(t: seq<Client>, c: Client)
    requires IsTable(t) && c in t
    ensures HasWs(t, c.ws) && ByWs(t, c.ws) == c && HasMcode(t, c.mcode) && ByMcode(t, c.mcode) == c
  {
    var i :| 0 <= i < |t| && t[i] == c;
    SameMcodeSameClient(t, c, ByWs(t, c.ws));
    SameMcodeSameClient(t, c, ByMcode(t, c.mcode));
  }
}
