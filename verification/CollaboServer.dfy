/**
 The handlers of Collabo.cpp over the server's global state, each tied to its step in Collabo.
 Sending to a socket appends to the log kept with its table entry.
 */
module CollaboServing {
  import opened Bytes
  import opened ClientTable
  import opened MemberList
  import opened RoleTable
  import opened Collabo
  import opened CollaboInvariants

  class CollaboServer {
    const header: array<byte>
    var headerSize: nat
    var firstCount: nat
    var clients: seq<Client>
    var db: Db
    var mode: Mode
    var encoderStopped: bool
    var imageLoops: nat
    var fullRequests: nat
    ghost var packets: seq<seq<byte>>
    ghost var captureFrom: nat

    ghost function State(): Server
      reads this, header
      requires headerSize <= header.Length
    {
      Server(clients, db, mode, !encoderStopped, imageLoops, firstCount, header[..headerSize], packets, captureFrom,
             fullRequests)
    }

    ghost predicate Valid()
      reads this, header
    {
      && header.Length == HEADER_CAPACITY
      && headerSize <= header.Length
      && TableInv(State())
      && CaptureInv(State())
    }

    constructor (db: Db)
      requires OneMemberPerNumber(db)
      ensures Valid() && fresh(header) && Initial(State()) && State().db == db && fullRequests == 0
    {
      header := new byte[HEADER_CAPACITY];
      headerSize, firstCount := 0, 0;
      clients := [];
      this.db := db;
      mode := Image;
      encoderStopped := true;
      imageLoops, fullRequests := 0, 0;
      packets, captureFrom := [], 0;
    }

    // ----- The container -----

    method FindWs(ws: nat) returns (i: nat)
      requires HasWs(clients, ws)
      ensures i < |clients| && clients[i] == ByWs(clients, ws)
    {
      i := 0;
      while clients[i].ws != ws
        invariant i < |clients| && HasWs(clients[i..], ws) && ByWs(clients[i..], ws) == ByWs(clients, ws)
        decreases |clients| - i
      {
        TailHasWs(clients[i..], ws);
        assert clients[i..][1..] == clients[i + 1..];
        i := i + 1;
      }
    }

    lemma TailHasWs(t: seq<Client>, ws: nat)
      requires HasWs(t, ws) && t[0].ws != ws
      ensures HasWs(t[1..], ws) && |t| > 1
    {
      var k :| 0 <= k < |t| && t[k].ws == ws;
      assert t[1..][k - 1].ws == ws;
    }

    method FindMcode(mcode: Str) returns (i: nat)
      ensures i <= |clients|
      ensures i < |clients| ==> HasMcode(clients, mcode) && clients[i] == ByMcode(clients, mcode)
      ensures i == |clients| ==> !HasMcode(clients, mcode)
    {
      i := 0;
      while i < |clients| && clients[i].mcode != mcode
        invariant i <= |clients|
        invariant forall k :: 0 <= k < i ==> clients[k].mcode != mcode
      {
        i := i + 1;
      }
      if i < |clients| {
        FirstByMcode(clients, mcode, i);
      }
    }

    lemma {:induction false} FirstByMcode(t: seq<Client>, mcode: Str, i: nat)
      requires i < |t| && t[i].mcode == mcode && forall k :: 0 <= k < i ==> t[k].mcode != mcode
      ensures HasMcode(t, mcode) && ByMcode(t, mcode) == t[i]
      decreases i
    {
      if i > 0 {
        FirstByMcode(t[1..], mcode, i - 1);
      }
    }

    method InsertClient(c: Client)
      requires IsTable(clients)
      modifies this`clients
      ensures clients == Insert(old(clients), c)
    {
      var i := 0;
      while i < |clients| && Less(clients[i].mcode, c.mcode)
        invariant i <= |clients|
        invariant forall k :: 0 <= k < i ==> Less(clients[k].mcode, c.mcode)
      {
        i := i + 1;
      }
      InsertMembers(clients, c);
      if i < |clients| && clients[i].mcode == c.mcode {
        return;
      }
      if i < |clients| {
        LessIsStrict(clients[i].mcode, c.mcode);
      }
      InsertAt(clients, c, i);
      clients := clients[..i] + [c] + clients[i..];
    }

    method Erase(ws: nat)
      requires IsTable(clients) && HasWs(clients, ws)
      modifies this`clients
      ensures clients == Remove(old(clients), ws)
    {
      var i := FindWs(ws);
      RemoveOne(clients, i);
      clients := clients[..i] + clients[i + 1..];
    }

    // ----- Sending -----

    method SendToAll(m: VideoMsg)
      modifies this`clients
      ensures clients == SendAll(old(clients), m)
    {
      for i := 0 to |clients|
        invariant |clients| == |old(clients)|
        invariant forall k :: 0 <= k < i ==> clients[k] == SendTo(old(clients)[k], m)
        invariant forall k :: i <= k < |clients| ==> clients[k] == old(clients)[k]
      {
        if clients[i].role != -1 {
          clients := clients[i := clients[i].(video := clients[i].video + [m])];
        }
      }
      assert clients == SendAll(old(clients), m);
    }

    method AppendToHeader(buf: seq<byte>)
      requires headerSize + |buf| <= header.Length
      modifies this`headerSize, header
      ensures headerSize == old(headerSize) + |buf|
      ensures header[..headerSize] == old(header[..headerSize]) + buf
    {
      forall i | 0 <= i < |buf| {
        header[headerSize + i] := buf[i];
      }
      headerSize := headerSize + |buf|;
    }

    /** The encoder's output callback: the first two packets make up the header, the others go out. */
    method ReadPacket(buf: seq<byte>) returns (n: nat)
      requires Valid() && |buf| <= IO_BUFFER_SIZE
      modifies this, header
      ensures Valid() && n == |buf|
      ensures State() == OnPacket(old(State()), buf)
    {
      PacketKeepsCapture(State(), buf);
      SendersKeepTable(State(), DecodeVideo(buf));
      SendersKeepTable(State(), InitVideo(header[..headerSize] + buf));
      if firstCount < 2 {
        AppendToHeader(buf);
        firstCount := firstCount + 1;
        if firstCount == 2 {
          SendToAll(InitVideo(header[..headerSize]));
        }
      } else {
        SendToAll(DecodeVideo(buf));
      }
      packets := packets + [buf];
      n := |buf|;
    }

    // ----- START and STOP -----

    /** START_STREAMING: a new image loop in image mode; initialize does nothing to a running encoder. */
    method StartStreaming()
      requires Valid()
      modifies this
      ensures Valid() && State() == Collabo.StartStreaming(old(State()))
    {
      StreamingKeepsTable(State());
      firstCount := 0;
      headerSize := 0;
      captureFrom := |packets|;
      if mode == Image {
        imageLoops := imageLoops + 1;
      }
      if encoderStopped {
        encoderStopped := false;
        packets, captureFrom := [], 0;
        clients := ClearLogs(clients);
      }
      assert header[..0] == [];
    }

    method StopStreaming()
      requires Valid()
      modifies this
      ensures Valid() && State() == Collabo.StopStreaming(old(State()))
    {
      encoderStopped := true;
      if mode == Image {
        imageLoops := 0;
      }
    }

    // ----- Handlers -----

    method OnOpen(ws: nat)
      requires Valid() && Enabled(State(), Open(ws))
      modifies this
      ensures Valid() && State() == Collabo.OnOpen(old(State()), ws)
    {
      OpenMembers(State(), ws);
      InsertClient(NewClient(ws));
      if |clients| == 1 {
        StartStreaming();
      }
    }

    method OnClose(ws: nat)
      requires Valid() && Enabled(State(), Close(ws))
      modifies this
      ensures Valid() && State() == Collabo.OnClose(old(State()), ws)
    {
      CloseMembers(State(), ws);
      Erase(ws);
      if |clients| == 0 {
        StopStreaming();
      }
    }

    /** terminate whoever holds the mcode, then put the admitted entry in the place of the socket's own. */
    method Replace(ws: nat, admitted: Client)
      requires IsTable(clients) && HasWs(clients, ws) && ByWs(clients, ws).mcode != admitted.mcode
      modifies this`clients
      ensures clients == Insert(Others(old(clients), ws, admitted.mcode), admitted)
    {
      OthersMembers(clients, ws, admitted.mcode);
      ghost var client := ByWs(clients, ws);
      var m := FindMcode(admitted.mcode);
      if m < |clients| {
        var holder := clients[m];
        RemoveMembers(clients, holder.ws);
        RemoveKeepsTable(clients, holder.ws);
        if holder.ws == ws {
          SameMcodeSameClient(clients, holder, client);
        }
        Erase(holder.ws);
        assert client in clients;
        Found(clients, client);
      }
      Erase(ws);
      InsertClient(admitted);
    }

    /** What isSuited writes into the client, and the INIT it gets once the header is complete. */
    method WithRights(c: Client, role: nat) returns (client: Client)
      requires headerSize <= header.Length
      ensures var admitted := WithRole(c, role);
              client == if firstCount == 2 then admitted.(video := admitted.video + [InitVideo(header[..headerSize])])
                        else admitted
    {
      client := c.(role := role);
      if role == 0 {
        client := client.(authority := true, chief := true);
      } else if role == 1 {
        client := client.(authority := true, chief := false);
      } else if role == 2 {
        client := client.(authority := false, chief := false);
      }
      if firstCount == 2 {
        client := client.(video := client.video + [InitVideo(header[..headerSize])]);
      }
    }

    /** The admission of a known member. */
    method Admit(ws: nat, mcode: Str, mscode: string, custom: Str, name: Str, role: nat) returns (client: Client)
      requires headerSize <= header.Length
      requires IsTable(clients) && HasWs(clients, ws) && ByWs(clients, ws).mcode != mcode
      modifies this`clients, this`fullRequests
      ensures client == Greeted(old(State()), ws, mcode, mscode, custom, name, role)
      ensures clients == Insert(Others(old(clients), ws, mcode), client)
      ensures fullRequests == if mode == Image then old(fullRequests) + 1 else old(fullRequests)
    {
      var wIt := FindWs(ws);
      client := WithRights(clients[wIt].(mcode := mcode, mscode := mscode, custom := custom, name := name), role);
      assert client.mcode == mcode;
      Replace(ws, client);
      if mode == Image {
        fullRequests := fullRequests + 1;
      }
    }

    /** SETTING; alert goes to everybody, and the first written bytes of list to the client, when it is admitted. */
    method OnSetting(ws: nat, mcode: Str, mscode: string, custom: Str, name: Str)
      returns (suited: bool, alert: seq<byte>, list: array<byte>, written: nat)
      requires Valid() && Enabled(State(), Setting(ws, mcode, mscode, custom, name))
      modifies this
      ensures Valid() && State() == Collabo.OnSetting(old(State()), ws, mcode, mscode, custom, name)
      ensures suited <==> RoleOf(old(db), mcode, mscode).Some?
      ensures suited ==> AlertOf(alert, clients, mcode) && ListOf(list, written, clients)
    {
      suited := RoleOf(db, mcode, mscode).Some?;
      if suited {
        alert, list, written := Welcome(ws, mcode, mscode, custom, name);
      } else {
        alert, written := [], 0;
        list := new byte[0];
        OnClose(ws);
      }
    }

    method Welcome(ws: nat, mcode: Str, mscode: string, custom: Str, name: Str)
      returns (alert: seq<byte>, list: array<byte>, written: nat)
      requires Valid() && Enabled(State(), Setting(ws, mcode, mscode, custom, name))
      requires RoleOf(db, mcode, mscode).Some?
      modifies this
      ensures Valid() && State() == Collabo.OnSetting(old(State()), ws, mcode, mscode, custom, name)
      ensures AlertOf(alert, clients, mcode) && ListOf(list, written, clients)
    {
      SettingKeepsValid(State(), ws, mcode, mscode, custom, name);
      var client := Admit(ws, mcode, mscode, custom, name, RoleOf(db, mcode, mscode).value);
      assert State() == Collabo.OnSetting(old(State()), ws, mcode, mscode, custom, name);
      alert := AlertFor(client);
      list, written := Announce();
    }

    method AlertFor(client: Client) returns (alert: seq<byte>)
      requires IsTable(clients) && client in clients && Fits(client)
      ensures AlertOf(alert, clients, client.mcode)
    {
      Found(clients, client);
      alert := Alert(client);
      AlertRoundTrip(client);
    }

    lemma SettingKeepsValid(s: Server, ws: nat, mcode: Str, mscode: string, custom: Str, name: Str)
      requires TableInv(s) && CaptureInv(s) && Enabled(s, Setting(ws, mcode, mscode, custom, name))
      requires RoleOf(s.db, mcode, mscode).Some?
      ensures ByWs(s.clients, ws).mcode != mcode
      ensures var s' := Collabo.OnSetting(s, ws, mcode, mscode, custom, name);
              var g := Greeted(s, ws, mcode, mscode, custom, name, RoleOf(s.db, mcode, mscode).value);
              TableInv(s') && CaptureInv(s') && g in s'.clients && g.mcode == mcode && Fits(g)
    {
      SettingMembers(s, ws, mcode, mscode, custom, name);
      GreetedShape(s, ws, mcode, mscode, custom, name, RoleOf(s.db, mcode, mscode).value);
    }

    /** The alert is that of the entry now in the table, and reads back as it. */
    ghost predicate AlertOf(alert: seq<byte>, t: seq<Client>, mcode: Str) {
      && HasMcode(t, mcode) && alert != [] && alert[0] == ACCESS_MEMBER
      && ParseAll(alert[1..]) == Some([MemberOf(ByMcode(t, mcode))])
    }

    /** The list is as long as the source allocates and its written part reads back as the admitted clients. */
    ghost predicate ListOf(list: array<byte>, written: nat, t: seq<Client>)
      reads list
    {
      && written <= list.Length == Allocation(t)
      && Parse(list[..written]) == Some(Members(t))
      && (list.Length - written == 0 || list.Length - written == RECORD_HEADER)
    }

    method Announce() returns (list: array<byte>, written: nat)
      requires Valid()
      ensures fresh(list) && ListOf(list, written, clients)
    {
      TableFits(State());
      MemberListRoundTrip(clients);
      RecordsLength(clients);
      list, written := Build(clients);
    }

    lemma OnlyOneChanges(t: seq<Client>, m: nat)
      requires IsTable(t) && m < |t|
      ensures forall k :: 0 <= k < |t| && k != m ==> t[k].mcode != t[m].mcode
    {
      LessIsIrreflexive(t[m].mcode);
    }

    lemma AuthorityKeepsValid(s: Server, ws: nat, dst: Str)
      requires TableInv(s) && CaptureInv(s) && Enabled(s, Authority(ws, dst))
      ensures TableInv(Collabo.OnAuthority(s, ws, dst)) && CaptureInv(Collabo.OnAuthority(s, ws, dst))
    {
      RightsMembers(s, Authority(ws, dst));
      RightsKeepStream(s, Authority(ws, dst));
    }

    lemma ChiefKeepsValid(s: Server, ws: nat, dst: Str)
      requires TableInv(s) && CaptureInv(s) && Enabled(s, Chief(ws, dst))
      ensures TableInv(Collabo.OnChief(s, ws, dst)) && CaptureInv(Collabo.OnChief(s, ws, dst))
    {
      RightsMembers(s, Chief(ws, dst));
      RightsKeepStream(s, Chief(ws, dst));
    }

    /** modify(it, changeAuth(authority)) */
    method ModifyAuthority(m: nat, authority: bool)
      requires IsTable(clients) && m < |clients|
      modifies this`clients
      ensures IsTable(clients) && SameKeys(old(clients), clients)
      ensures clients == SetAuthority(old(clients), old(clients)[m].mcode, authority)
    {
      OnlyOneChanges(clients, m);
      clients := clients[m := clients[m].(authority := authority)];
      assert SameKeys(old(clients), clients);
    }

    method ToggleAuthority(m: nat)
      requires IsTable(clients) && m < |clients|
      modifies this`clients
      ensures |clients| == |old(clients)| && clients[m].authority == !old(clients)[m].authority
      ensures clients == SetAuthority(old(clients), old(clients)[m].mcode, !old(clients)[m].authority)
    {
      if clients[m].authority {
        ModifyAuthority(m, false);
      } else {
        ModifyAuthority(m, true);
      }
    }

    /** modify(it, changeChief(chief)) */
    method ModifyChief(m: nat, chief: bool)
      requires IsTable(clients) && m < |clients|
      modifies this`clients
      ensures IsTable(clients) && SameKeys(old(clients), clients)
      ensures clients == SetChief(old(clients), old(clients)[m].mcode, chief)
    {
      OnlyOneChanges(clients, m);
      clients := clients[m := clients[m].(chief := chief)];
      assert SameKeys(old(clients), clients);
    }

    method OnAuthority(ws: nat, dst: Str)
      requires Valid() && Enabled(State(), Authority(ws, dst))
      modifies this
      ensures Valid() && State() == Collabo.OnAuthority(old(State()), ws, dst)
    {
      AuthorityKeepsValid(State(), ws, dst);
      var wIt := FindWs(ws);
      if clients[wIt].chief {
        var m := FindMcode(dst);
        var member := clients[m];
        ToggleAuthority(m);
        db := ChangeAuth(db, dst, clients[m].authority, member.mscode);
      }
      assert State() == Collabo.OnAuthority(old(State()), ws, dst);
    }

    method HandOver(srcIt: nat, dstIt: nat)
      requires IsTable(clients) && srcIt < |clients| && dstIt < |clients|
      modifies this`clients
      ensures var src, dst := old(clients)[srcIt].mcode, old(clients)[dstIt].mcode;
              clients == SetAuthority(SetChief(SetChief(old(clients), src, false), dst, true), dst, true)
    {
      ModifyChief(srcIt, false);
      ModifyChief(dstIt, true);
      ModifyAuthority(dstIt, true);
    }

    method OnChief(ws: nat, dst: Str)
      requires Valid() && Enabled(State(), Chief(ws, dst))
      modifies this
      ensures Valid() && State() == Collabo.OnChief(old(State()), ws, dst)
    {
      ChiefKeepsValid(State(), ws, dst);
      var wIt := FindWs(ws);
      var client := clients[wIt];
      if client.chief {
        var dstIt := FindMcode(dst);
        HandOver(wIt, dstIt);
        db := ChangeChief(db, client.mcode, dst, client.mscode);
      }
      assert State() == Collabo.OnChief(old(State()), ws, dst);
    }

    method SwitchTo(wanted: Mode)
      requires Valid()
      modifies this
      ensures Valid()
      ensures State() == Collabo.StartStreaming(Collabo.StopStreaming(old(State())).(mode := wanted))
    {
      StopStreaming();
      mode := wanted;
      StartStreaming();
    }

    method OnMode(ws: nat, wanted: Option<Mode>)
      requires Valid() && Enabled(State(), ChangeMode(ws, wanted))
      modifies this
      ensures Valid() && State() == Collabo.OnMode(old(State()), ws, wanted)
    {
      var wIt := FindWs(ws);
      var client := clients[wIt];
      if client.role != -1 && client.chief {
        if wanted == Some(Video) && mode != Video {
          SwitchTo(Video);
        } else if wanted == Some(Image) && mode != Image {
          SwitchTo(Image);
        }
      }
    }
  }
}
