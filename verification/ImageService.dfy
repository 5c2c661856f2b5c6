/**
 The server and its image loop together, seen from one socket: handlers admit and drop the socket,
 request full frames and start new loops, interleaved with the steps of the loop that runs. While
 more than one loop runs, nothing is said about what they draw.
 */
module ImageService {
  import opened Bytes
  import opened ClientTable
  import opened RoleTable
  import C = Collabo
  import CI = CollaboInvariants
  import D = DeltaStream

  /** image.client is the socket's; sends counts those of the loop since the socket was admitted or the loop started. */
  datatype Joint = Joint(server: C.Server, image: D.System, sends: nat)

  /**
   A handler, with the size of the screen should it start a loop; a step of the only loop; or
   anything at all from several of them.
   */
  datatype Tick = Handle(event: C.Event, w: nat, h: nat) | Advance(step: D.Event) | Contend(image: D.System)

  predicate IsAdmitted(s: C.Server, ws: nat) {
    HasWs(s.clients, ws) && ByWs(s.clients, ws).Admitted()
  }

  /** The handler starts an image loop. */
  predicate StartsLoop(s: C.Server, e: C.Event)
    requires C.Enabled(s, e)
  {
    match e
    case Open(ws) => s.mode == C.Image && |Insert(s.clients, NewClient(ws))| == 1
    case ChangeMode(ws, wanted) => C.OnMode(s, ws, wanted) != s && wanted == Some(C.Image)
    case _ => false
  }

  ghost predicate Enabled(j: Joint, t: Tick) {
    && D.LoopValid(j.image.l)
    && match t
       case Handle(e, _, _) => C.Enabled(j.server, e)
       case Advance(e) =>
         j.server.imageLoops == 1 && D.Enabled(j.image.l, e) && !e.RequestFull? && !e.Join? && !e.Leave?
       case Contend(image) => j.server.imageLoops > 1 && D.LoopValid(image.l)
  }

  ghost function Admission(i: D.System, was: bool, now: bool): D.System
    requires D.LoopValid(i.l)
  {
    if !was && now then D.SystemStep(i, D.Join) else i
  }

  ghost function Request(i: D.System, asked: bool): D.System
    requires D.LoopValid(i.l)
  {
    if asked then D.SystemStep(i, D.RequestFull) else i
  }

  ghost function Departure(i: D.System, was: bool, now: bool): D.System
    requires D.LoopValid(i.l)
  {
    if was && !now then D.SystemStep(i, D.Leave) else i
  }

  /** A new loop; the full-frame flag is the compressor's and survives. */
  function NewLoop(i: D.System, admitted: bool, w: nat, h: nat): D.System {
    var client := if admitted then D.Client(true, map[], false, Some((w, h))) else D.ABSENT;
    D.System(D.Loop(D.AtGrab, w, h, None, None, i.l.fullFlag, 0), client, None, None)
  }

  ghost function Step(ws: nat, j: Joint, t: Tick): Joint
    requires Enabled(j, t)
  {
    match t
    case Advance(e) => Joint(j.server, D.SystemStep(j.image, e), if e.Send? then j.sends + 1 else j.sends)
    case Contend(image) => j.(image := image)
    case Handle(e, w, h) =>
      var s' := C.Step(j.server, e);
      var was, now := IsAdmitted(j.server, ws), IsAdmitted(s', ws);
      if StartsLoop(j.server, e) then Joint(s', NewLoop(j.image, now, w, h), 0)
      else
        var image := Departure(
          Request(Admission(j.image, was, now), s'.fullRequests > j.server.fullRequests), was, now);
        Joint(s', image, if !was && now then 0 else j.sends)
  }

  ghost predicate Initial(j: Joint) {
    CI.Initial(j.server) && D.LoopValid(j.image.l)
  }

  ghost predicate IsRun(ws: nat, js: seq<Joint>, ts: seq<Tick>) {
    && |js| == |ts| + 1
    && Initial(js[0])
    && forall i :: 0 <= i < |ts| ==> Enabled(js[i], ts[i]) && js[i + 1] == Step(ws, js[i], ts[i])
  }

  /** The socket has what it needs, or one of the next two patches will be full. */
  ghost predicate Progress(i: D.System, sends: nat) {
    D.Following(i) || (sends == 0 && D.Requested(i.l)) || (sends == 1 && D.Armed(i.l))
  }

  ghost predicate InStep(ws: nat, j: Joint) {
    && D.Inv(j.image)
    && (j.image.client.joined <==> IsAdmitted(j.server, ws))
    && (IsAdmitted(j.server, ws) ==> Progress(j.image, j.sends))
  }

  /** Somebody connected in image mode has a loop, and nobody else. */
  ghost predicate LoopRuns(s: C.Server) {
    s.imageLoops > 0 <==> s.mode == C.Image && s.clients != []
  }

  /** A single loop is either new or was the only one before. */
  lemma StepKeepsLoop(s: C.Server, e: C.Event)
    requires CI.TableInv(s) && C.Enabled(s, e) && LoopRuns(s)
    ensures LoopRuns(C.Step(s, e))
    ensures C.Step(s, e).imageLoops == 1 && s.imageLoops != 1 ==> StartsLoop(s, e)
  {
    match e
    case Open(ws) => InsertMembers(s.clients, NewClient(ws));
    case Setting(ws, mcode, mscode, custom, name) =>
      if RoleOf(s.db, mcode, mscode).Some? {
        CI.SettingMembers(s, ws, mcode, mscode, custom, name);
      }
    case Authority(ws, dst) =>
    case Chief(ws, dst) =>
    case ChangeMode(ws, wanted) =>
    case Packet(buf) =>
    case Close(ws) =>
  }

  ghost predicate Inv(ws: nat, j: Joint) {
    && CI.TableInv(j.server) && LoopRuns(j.server) && D.LoopValid(j.image.l)
    && (j.server.imageLoops == 1 ==> InStep(ws, j))
  }

  /** In image mode every admission asks for a full frame, and image mode is entered only by starting a loop. */
  lemma AdmissionRequests(s: C.Server, e: C.Event, ws: nat)
    requires CI.TableInv(s) && C.Enabled(s, e)
    ensures !IsAdmitted(s, ws) && IsAdmitted(C.Step(s, e), ws) ==>
              !StartsLoop(s, e) && (s.mode == C.Image ==> C.Step(s, e).fullRequests > s.fullRequests)
    ensures C.Step(s, e).mode != s.mode && C.Step(s, e).mode == C.Image ==> StartsLoop(s, e)
  {
    CI.StepKeepsTable(s, e);
    var s' := C.Step(s, e);
    if !IsAdmitted(s, ws) && IsAdmitted(s', ws) && !(e.Setting? && RoleOf(s.db, e.mcode, e.mscode).Some?) {
      NobodyAdmitted(s, e, ByWs(s'.clients, ws));
      var c :| c in s.clients && c.Admitted() && c.ws == ws;
      CI.Found(s.clients, c);
      assert false;
    }
  }

  /** Only SETTING from a known member admits anybody. */
  lemma NobodyAdmitted(s: C.Server, e: C.Event, d: Client)
    requires CI.TableInv(s) && C.Enabled(s, e) && d in C.Step(s, e).clients && d.Admitted()
    requires !(e.Setting? && RoleOf(s.db, e.mcode, e.mscode).Some?)
    ensures exists c :: c in s.clients && c.Admitted() && c.ws == d.ws
  {
    match e
    case Open(ws) =>
      var s1 := s.(clients := Insert(s.clients, NewClient(ws)));
      InsertMembers(s.clients, NewClient(ws));
      CI.OpenMembers(s, ws);
      CI.StreamingKeepsTable(s1);
    case Setting(ws, mcode, mscode, custom, name) => CI.CloseMembers(s, ws);
    case Authority(ws, dst) => RightsAdmitNobody(s, e, d);
    case Chief(ws, dst) => RightsAdmitNobody(s, e, d);
    case ChangeMode(ws, wanted) =>
      if C.OnMode(s, ws, wanted) != s {
        CI.StreamingKeepsTable(C.StopStreaming(s).(mode := wanted.value));
      }
    case Packet(buf) =>
      SendAllMembers(s, buf, d);
    case Close(ws) => CI.CloseMembers(s, ws);
  }

  lemma RightsAdmitNobody(s: C.Server, e: C.Event, d: Client)
    requires CI.TableInv(s) && C.Enabled(s, e) && (e.Authority? || e.Chief?)
    requires d in C.Step(s, e).clients && d.Admitted()
    ensures exists c :: c in s.clients && c.Admitted() && c.ws == d.ws
  {
    CI.RightsMembers(s, e);
    var c :| c in s.clients && d == CI.NewRights(s, e, c);
    CI.RightsShape(s, e, c);
  }

  lemma SendAllMembers(s: C.Server, buf: seq<byte>, d: Client)
    requires CI.TableInv(s) && d in C.OnPacket(s, buf).clients && d.Admitted()
    ensures exists c :: c in s.clients && c.Admitted() && c.ws == d.ws
  {
    CI.SendAllMembers(s.clients, InitVideo(s.header + buf));
    CI.SendAllMembers(s.clients, DecodeVideo(buf));
  }

  lemma AdvanceKeepsInv(ws: nat, j: Joint, e: D.Event)
    requires Inv(ws, j) && Enabled(j, Advance(e))
    ensures Inv(ws, Step(ws, j, Advance(e)))
  {
    var i := j.image;
    D.StepKeepsInv(i, e);
    D.StepServes(i.l, e);
    assert D.SystemStep(i, e).client.joined == i.client.joined;
    if D.Armed(i.l) && e.Send? && i.client.joined {
      D.FullPatchSyncs(i, e);
    }
    if D.Following(i) {
      FollowsOn(i, e);
    }
  }

  lemma FollowsOn(i: D.System, e: D.Event)
    requires D.Inv(i) && D.Enabled(i.l, e) && !e.Join? && !e.Leave? && D.Following(i)
    ensures D.Following(D.SystemStep(i, e))
  {
  }

  /** A request spoils nobody's progress. */
  lemma RequestKeepsProgress(i: D.System, sends: nat)
    requires D.Inv(i) && Progress(i, sends)
    ensures Progress(D.SystemStep(i, D.RequestFull), sends)
  {
  }

  /** Asking right after joining puts the socket on its way. */
  lemma JoinRequestProgress(i: D.System)
    requires D.Inv(i)
    ensures var i' := D.SystemStep(D.SystemStep(i, D.Join), D.RequestFull);
            D.Requested(i'.l) && i'.client.joined
  {
  }

  lemma EffectsKeepValid(i: D.System, was: bool, now: bool, asked: bool)
    requires D.LoopValid(i.l)
    ensures D.LoopValid(Departure(Request(Admission(i, was, now), asked), was, now).l)
  {
  }

  lemma EffectsKeepInv(i: D.System, was: bool, now: bool, asked: bool)
    requires D.Inv(i) && i.client.joined == was
    ensures var i1 := Admission(i, was, now);
            var i2 := Request(i1, asked);
            var i3 := Departure(i2, was, now);
            D.Inv(i1) && D.Inv(i2) && D.Inv(i3) && i3.client.joined == now
  {
    var i1 := Admission(i, was, now);
    if !was && now {
      D.StepKeepsInv(i, D.Join);
    }
    if asked {
      D.StepKeepsInv(i1, D.RequestFull);
    }
    if was && !now {
      D.StepKeepsInv(Request(i1, asked), D.Leave);
    }
  }

  lemma EffectsKeepProgress(i: D.System, was: bool, now: bool, asked: bool, sends: nat)
    requires D.Inv(i) && i.client.joined == was && now
    requires if was then Progress(i, sends) else asked
    ensures Progress(Departure(Request(Admission(i, was, now), asked), was, now), if was then sends else 0)
  {
    if !was {
      JoinRequestProgress(i);
    } else if asked {
      RequestKeepsProgress(i, sends);
    }
  }

  lemma HandleKeepsInv(ws: nat, j: Joint, e: C.Event, w: nat, h: nat)
    requires Inv(ws, j) && Enabled(j, Handle(e, w, h))
    ensures Inv(ws, Step(ws, j, Handle(e, w, h)))
  {
    CI.StepKeepsTable(j.server, e);
    StepKeepsLoop(j.server, e);
    AdmissionRequests(j.server, e, ws);
    var s' := C.Step(j.server, e);
    var was, now := IsAdmitted(j.server, ws), IsAdmitted(s', ws);
    if StartsLoop(j.server, e) {
      assert D.Armed(NewLoop(j.image, now, w, h).l);
    } else {
      var asked := s'.fullRequests > j.server.fullRequests;
      EffectsKeepValid(j.image, was, now, asked);
      if s'.imageLoops == 1 {
        EffectsKeepInv(j.image, was, now, asked);
      }
      if s'.imageLoops == 1 && now {
        EffectsKeepProgress(j.image, was, now, asked, j.sends);
      }
    }
  }

  lemma {:induction false} RunKeepsInv(ws: nat, js: seq<Joint>, ts: seq<Tick>, n: nat)
    requires IsRun(ws, js, ts) && n <= |ts|
    ensures Inv(ws, js[n])
  {
    if n > 0 {
      RunKeepsInv(ws, js, ts, n - 1);
      match ts[n - 1]
      case Handle(e, w, h) => HandleKeepsInv(ws, js[n - 1], e, w, h);
      case Advance(e) => AdvanceKeepsInv(ws, js[n - 1], e);
      case Contend(_) =>
    }
  }

  /**
   End to end: on every run of server and image loop, in image mode a socket that is admitted shows,
   between two iterations and from the second send after its admission or the start of the loop on,
   the last captured frame at every pixel but possibly the bottom-right one, unless a second loop
   runs at that moment.
   */
  lemma AdmittedSocketCatchesUp(ws: nat, js: seq<Joint>, ts: seq<Tick>)
    requires IsRun(ws, js, ts)
    requires var j := js[|ts|];
             && j.server.mode == C.Image && IsAdmitted(j.server, ws) && j.server.imageLoops < 2
             && j.sends >= 2 && j.image.l.pc == D.AtGrab
    ensures var i := js[|ts|].image;
            i.l.cur.Some? && D.Fits(i.l, i.l.cur.value) && D.Agrees(i.client.canvas, i.l.cur.value)
  {
    RunKeepsInv(ws, js, ts, |ts|);
  }
}
