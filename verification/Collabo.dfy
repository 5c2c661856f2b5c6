/**
 The collaboration server of Collabo.cpp as a step function: one step a handler call or a packet
 from the encoder. terminate() takes effect at once. The callbacks of test_collabo.h are folded in:
 START runs startStreaming, STOP runs stopStreaming, and a stopped image loop is gone by the next
 START.
 */
module Collabo {
  import opened Bytes
  import opened ClientTable
  import opened MeetingNumber
  import opened MemberList
  import opened RoleTable

  datatype Mode = Video | Image

  /**
   packets are those of the current stream of the encoder, captureFrom how many of them there were
   when firstCount was last set to zero; fullRequests counts the calls of sendFull.
   */
  datatype Server = Server(clients: seq<Client>, db: Db, mode: Mode, running: bool, imageLoops: nat,
                           firstCount: nat, header: seq<byte>, packets: seq<seq<byte>>, captureFrom: nat,
                           fullRequests: nat)

  datatype Event =
    | Open(ws: nat)
    | Setting(ws: nat, mcode: Str, mscode: string, custom: Str, name: Str)
    | Authority(ws: nat, dst: Str)
    | Chief(ws: nat, dst: Str)
    | ChangeMode(ws: nat, wanted: Option<Mode>)
    | Packet(buf: seq<byte>)
    | Close(ws: nat)

  const IO_BUFFER_SIZE := 4096
  const HEADER_CAPACITY := 10000

  /**
   What the source takes for granted: known sockets and destinations, texts whose length fits an int,
   and from a registered member a meeting code it can cut; no member is registered under the empty
   mcode. SETTING terminates whoever holds the mcode, which must not be the sender. A chief's
   AUTHORITY cuts the code of the destination and its CHIEF its own, so that is the one who must
   have been admitted.
   */
  predicate Enabled(s: Server, e: Event) {
    match e
    case Open(ws) => !HasWs(s.clients, ws)
    case Setting(ws, mcode, mscode, custom, name) =>
      HasWs(s.clients, ws)
      && (RoleOf(s.db, mcode, mscode).Some? ==> ByWs(s.clients, ws).mcode != mcode)
      && |mcode| < INT_LIMIT && |custom| < INT_LIMIT && |name| < INT_LIMIT
      && (mcode in s.db.members ==> mcode != [] && MeetingOf(mscode).Some?)
    case Authority(ws, dst) =>
      HasWs(s.clients, ws) && (ByWs(s.clients, ws).chief ==> HasAdmitted(s.clients, dst))
    case Chief(ws, dst) =>
      HasWs(s.clients, ws)
      && (ByWs(s.clients, ws).chief ==> ByWs(s.clients, ws).Admitted() && HasMcode(s.clients, dst))
    case ChangeMode(ws, _) => HasWs(s.clients, ws)
    case Packet(buf) => |buf| <= IO_BUFFER_SIZE
    case Close(ws) => HasWs(s.clients, ws)
  }

  predicate HasAdmitted(t: seq<Client>, mcode: Str) {
    HasMcode(t, mcode) && ByMcode(t, mcode).Admitted()
  }

  /**
   startStreaming. The header capture starts over in any case; a new stream of packets begins only
   if the encoder was stopped, a running one goes on with its own.
   */
  function StartStreaming(s: Server): Server {
    var s' := if s.running then s.(captureFrom := |s.packets|)
              else s.(clients := ClearLogs(s.clients), packets := [], captureFrom := 0);
    s'.(firstCount := 0, header := [],
        imageLoops := if s.mode == Image then s.imageLoops + 1 else s.imageLoops,
        running := true)
  }

  function StopStreaming(s: Server): Server {
    s.(running := false, imageLoops := if s.mode == Image then 0 else s.imageLoops)
  }

  function OnOpen(s: Server, ws: nat): Server {
    var s' := s.(clients := Insert(s.clients, NewClient(ws)));
    if |s'.clients| == 1 then StartStreaming(s') else s'
  }

  function OnClose(s: Server, ws: nat): Server {
    var s' := s.(clients := Remove(s.clients, ws));
    if s'.clients == [] then StopStreaming(s') else s'
  }

  /** The rights isSuited writes into the client for a role; other roles leave them as they were. */
  function WithRole(c: Client, role: nat): Client {
    if role == 0 then c.(role := role, authority := true, chief := true)
    else if role == 1 then c.(role := role, authority := true, chief := false)
    else if role == 2 then c.(role := role, authority := false, chief := false)
    else c.(role := role)
  }

  function OnSetting(s: Server, ws: nat, mcode: Str, mscode: string, custom: Str, name: Str): Server
    requires HasWs(s.clients, ws)
  {
    match RoleOf(s.db, mcode, mscode)
    case None => OnClose(s, ws)
    case Some(role) =>
      s.(clients := Insert(Others(s.clients, ws, mcode), Greeted(s, ws, mcode, mscode, custom, name, role)),
         fullRequests := if s.mode == Image then s.fullRequests + 1 else s.fullRequests)
  }

  /** The entry SETTING puts into the table when the member is known. */
  function Greeted(s: Server, ws: nat, mcode: Str, mscode: string, custom: Str, name: Str, role: nat): Client
    requires HasWs(s.clients, ws)
  {
    var asked := ByWs(s.clients, ws).(mcode := mcode, mscode := mscode, custom := custom, name := name);
    var admitted := WithRole(asked, role);
    if s.firstCount == 2 then admitted.(video := admitted.video + [InitVideo(s.header)]) else admitted
  }

  /** The table without the socket and without whoever held the mcode before. */
  function Others(t: seq<Client>, ws: nat, mcode: Str): seq<Client> {
    Remove(if HasMcode(t, mcode) then Remove(t, ByMcode(t, mcode).ws) else t, ws)
  }

  function OnAuthority(s: Server, ws: nat, dst: Str): Server
    requires HasWs(s.clients, ws) && (ByWs(s.clients, ws).chief ==> HasMcode(s.clients, dst))
  {
    if !ByWs(s.clients, ws).chief then s
    else
      var d := ByMcode(s.clients, dst);
      s.(clients := SetAuthority(s.clients, dst, !d.authority), db := ChangeAuth(s.db, dst, !d.authority, d.mscode))
  }

  function OnChief(s: Server, ws: nat, dst: Str): Server
    requires HasWs(s.clients, ws)
  {
    var c := ByWs(s.clients, ws);
    if !c.chief then s
    else
      s.(clients := SetAuthority(SetChief(SetChief(s.clients, c.mcode, false), dst, true), dst, true),
         db := ChangeChief(s.db, c.mcode, dst, c.mscode))
  }

  function OnMode(s: Server, ws: nat, wanted: Option<Mode>): Server
    requires HasWs(s.clients, ws)
  {
    var c := ByWs(s.clients, ws);
    if c.Admitted() && c.chief && wanted.Some? && wanted.value != s.mode
    then StartStreaming(StopStreaming(s).(mode := wanted.value))
    else s
  }

  function OnPacket(s: Server, buf: seq<byte>): Server {
    var s' := s.(packets := s.packets + [buf]);
    if s.firstCount < 2 then
      var header := s.header + buf;
      s'.(header := header, firstCount := s.firstCount + 1,
          clients := if s.firstCount + 1 == 2 then SendAll(s.clients, InitVideo(header)) else s.clients)
    else s'.(clients := SendAll(s.clients, DecodeVideo(buf)))
  }

  function Step(s: Server, e: Event): Server
    requires Enabled(s, e)
  {
    match e
    case Open(ws) => OnOpen(s, ws)
    case Setting(ws, mcode, mscode, custom, name) => OnSetting(s, ws, mcode, mscode, custom, name)
    case Authority(ws, dst) => OnAuthority(s, ws, dst)
    case Chief(ws, dst) => OnChief(s, ws, dst)
    case ChangeMode(ws, wanted) => OnMode(s, ws, wanted)
    case Packet(buf) => OnPacket(s, buf)
    case Close(ws) => OnClose(s, ws)
  }
}
