/** Which simulcast layer a video receiver forwards to each destination (media/src/stream.rs): a
    destination keeps its layer until a key frame of the newly requested one arrives. */
module LayerSwitch {
  import opened Bytes

  type Uuid = nat
  type Rid = string

  datatype SwitchState = Switched(rid: Rid) | Switching(current: Rid, target: Rid)

  type Layers = map<Uuid, SwitchState>

  // ----- one destination -----

  /** The state after a request for `rid`. */
  function Requested(s: Option<SwitchState>, rid: Rid): SwitchState {
    match s
    case None => Switched(rid)
    case Some(Switched(r)) => if r != rid then Switching(r, rid) else Switched(r)
    case Some(Switching(current, target)) => if current == rid then Switched(rid) else Switching(current, rid)
  }

  /** Whether a packet goes to the destination, and the state after it. */
  function Arrived(s: SwitchState, rid: Rid, isKeyFrame: bool): (r: (SwitchState, bool)) {
    match s
    case Switched(r) => (s, rid == r)
    case Switching(current, target) =>
      if rid == current then (s, true)
      else if rid == target && isKeyFrame then (Switched(target), true)
      else (s, false)
  }

  function Target(s: SwitchState): Rid {
    match s
    case Switched(rid) => rid
    case Switching(_, target) => target
  }

  function Current(s: SwitchState): Rid {
    match s
    case Switched(rid) => rid
    case Switching(current, _) => current
  }

  class VideoStreamReceiver {
    var destinationLayers: Layers

    constructor ()
      ensures destinationLayers == map[]
    {
      destinationLayers := map[];
    }

    /** A request with no layer removes the destination. */
    method UpdateDestinationLayer(dst: Uuid, rid: Option<Rid>)
      modifies this
      ensures destinationLayers == AfterRequest(old(destinationLayers), dst, rid)
    {
      if rid.None? {
        destinationLayers := destinationLayers - {dst};
        return;
      }
      var wanted := rid.value;
      if dst in destinationLayers {
        match destinationLayers[dst] {
          case Switched(r) =>
            if r != wanted {
              destinationLayers := destinationLayers[dst := Switching(r, wanted)];
            }
          case Switching(current, target) =>
            if current == wanted {
              destinationLayers := destinationLayers[dst := Switched(wanted)];
            } else if target != wanted {
              destinationLayers := destinationLayers[dst := Switching(current, wanted)];
            }
        }
      } else {
        destinationLayers := destinationLayers[dst := Switched(wanted)];
      }
    }

    /** The forwarding loop over the destinations, in whatever order they come. */
    method ForwardPacket(rid: Rid, isKeyFrame: bool) returns (sentTo: set<Uuid>)
      modifies this
      ensures destinationLayers == AfterPacket(old(destinationLayers), rid, isKeyFrame)
      ensures sentTo == Receivers(old(destinationLayers), rid, isKeyFrame)
    {
      hide Arrived, AfterPacket, Receivers, PartForwarded, PartReceivers;
      ghost var before := destinationLayers;
      var todo := destinationLayers.Keys;
      ghost var done: set<Uuid> := {};
      sentTo := {};
      NoneForwarded(before, rid, isKeyFrame);
      while todo != {}
        invariant todo !! done && todo + done == before.Keys
        invariant destinationLayers == PartForwarded(before, done, rid, isKeyFrame)
        invariant sentTo == PartReceivers(before, done, rid, isKeyFrame)
        decreases |todo|
      {
        var dst :| dst in todo;
        todo := todo - {dst};
        PartForwardedGrows(before, done, dst, rid, isKeyFrame);
        done := done + {dst};
        var state, sends := Offer(destinationLayers[dst], rid, isKeyFrame);
        if sends {
          sentTo := sentTo + {dst};
        }
        destinationLayers := destinationLayers[dst := state];
      }
      assert done == before.Keys;
      AllForwarded(before, rid, isKeyFrame);
    }

    /** The body of the forwarding loop for one destination. */
    static method Offer(s: SwitchState, rid: Rid, isKeyFrame: bool) returns (state: SwitchState, sends: bool)
      ensures (state, sends) == Arrived(s, rid, isKeyFrame)
    {
      state, sends := s, false;
      match s {
        case Switched(r) =>
          if rid == r {
            sends := true;
          }
        case Switching(current, target) =>
          if rid == current {
            sends := true;
          } else if rid == target && isKeyFrame {
            sends := true;
            state := Switched(target);
          }
      }
    }
  }

  /** The layers when the loop has dealt with the destinations in `done`. */
  ghost function PartForwarded(m: Layers, done: set<Uuid>, rid: Rid, isKeyFrame: bool): Layers {
    map d | d in m :: if d in done then Arrived(m[d], rid, isKeyFrame).0 else m[d]
  }

  /** Those it has sent the packet to by then. */
  ghost function PartReceivers(m: Layers, done: set<Uuid>, rid: Rid, isKeyFrame: bool): set<Uuid> {
    set d | d in m && d in done && Arrived(m[d], rid, isKeyFrame).1
  }

  lemma NoneForwarded(m: Layers, rid: Rid, isKeyFrame: bool)
    ensures PartForwarded(m, {}, rid, isKeyFrame) == m
    ensures PartReceivers(m, {}, rid, isKeyFrame) == {}
  {
  }

  lemma AllForwarded(m: Layers, rid: Rid, isKeyFrame: bool)
    ensures PartForwarded(m, m.Keys, rid, isKeyFrame) == AfterPacket(m, rid, isKeyFrame)
    ensures PartReceivers(m, m.Keys, rid, isKeyFrame) == Receivers(m, rid, isKeyFrame)
  {
    hide Arrived;
  }

  lemma PartForwardedGrows(m: Layers, done: set<Uuid>, dst: Uuid, rid: Rid, isKeyFrame: bool)
    requires dst in m && dst !in done
    ensures dst in PartForwarded(m, done, rid, isKeyFrame)
    ensures PartForwarded(m, done, rid, isKeyFrame)[dst] == m[dst]
    ensures PartForwarded(m, done + {dst}, rid, isKeyFrame)
         == PartForwarded(m, done, rid, isKeyFrame)[dst := Arrived(m[dst], rid, isKeyFrame).0]
    ensures PartReceivers(m, done + {dst}, rid, isKeyFrame)
         == PartReceivers(m, done, rid, isKeyFrame) + (if Arrived(m[dst], rid, isKeyFrame).1 then {dst} else {})
  {
    hide Arrived;
  }

  // ----- all destinations -----

  function StateOf(m: Layers, dst: Uuid): Option<SwitchState> {
    if dst in m then Some(m[dst]) else None
  }

  function AfterRequest(m: Layers, dst: Uuid, rid: Option<Rid>): Layers {
    match rid
    case None => m - {dst}
    case Some(r) => m[dst := Requested(StateOf(m, dst), r)]
  }

  function AfterPacket(m: Layers, rid: Rid, isKeyFrame: bool): Layers {
    map d | d in m :: Arrived(m[d], rid, isKeyFrame).0
  }

  function Receivers(m: Layers, rid: Rid, isKeyFrame: bool): set<Uuid> {
    set d | d in m && Arrived(m[d], rid, isKeyFrame).1
  }

  // ----- whole runs -----

  datatype Event = Request(dst: Uuid, rid: Option<Rid>) | Packet(layer: Rid, isKeyFrame: bool)

  function Step(m: Layers, e: Event): Layers {
    match e
    case Request(dst, rid) => AfterRequest(m, dst, rid)
    case Packet(rid, isKeyFrame) => AfterPacket(m, rid, isKeyFrame)
  }

  function Run(es: seq<Event>): Layers {
    if es == [] then map[] else Step(Run(es[..|es| - 1]), es[|es| - 1])
  }

  /** The layer last requested for a destination, none if it was removed since. */
  function LastRequest(es: seq<Event>, dst: Uuid): Option<Rid> {
    if es == [] then None
    else
      var e := es[|es| - 1];
      if e.Request? && e.dst == dst then e.rid else LastRequest(es[..|es| - 1], dst)
  }

  /** The layer of the packet last forwarded to a destination since it was last added. */
  function LastSent(es: seq<Event>, dst: Uuid): Option<Rid> {
    if es == [] then None
    else
      var (before, e) := (es[..|es| - 1], es[|es| - 1]);
      match e
      case Request(d, rid) => if d == dst && rid.None? then None else LastSent(before, dst)
      case Packet(layer, isKeyFrame) =>
        if dst in Receivers(Run(before), layer, isKeyFrame) then Some(layer) else LastSent(before, dst)
  }

  /** Over every run, a destination is known exactly when it was last asked to have a layer, its
      target is that layer, it is switching only between different layers, and what it last got is
      the layer it is on. */
  lemma {:induction false} TargetIsLastRequest(es: seq<Event>, dst: Uuid)
    ensures var m := Run(es);
            && (dst in m <==> LastRequest(es, dst).Some?)
            && (dst in m ==> Target(m[dst]) == LastRequest(es, dst).value)
            && (dst in m && m[dst].Switching? ==> m[dst].current != m[dst].target)
            && (dst !in m ==> LastSent(es, dst).None?)
            && (LastSent(es, dst).Some? ==> LastSent(es, dst).value == Current(m[dst]))
  {
    if es != [] {
      TargetIsLastRequest(es[..|es| - 1], dst);
    }
  }

  /** Over every run, when a destination gets a packet of another layer than the one before, with no
      removal between, it is a key frame of the layer last requested. */
  lemma SwitchesOnKeyFrames(es: seq<Event>, dst: Uuid, rid: Rid, isKeyFrame: bool)
    requires dst in Receivers(Run(es), rid, isKeyFrame)
    requires LastSent(es, dst).Some? && LastSent(es, dst).value != rid
    ensures isKeyFrame && LastRequest(es, dst) == Some(rid)
    ensures Run(es + [Packet(rid, isKeyFrame)])[dst] == Switched(rid)
  {
    TargetIsLastRequest(es, dst);
    assert (es + [Packet(rid, isKeyFrame)])[..|es|] == es;
  }

  /** The layer a destination is on, by requests and key frames alone: its first request puts it on a
      layer, and from then on only a key frame of the layer last requested puts it on another. */
  function OnLayer(es: seq<Event>, dst: Uuid): Option<Rid> {
    if es == [] then None
    else
      var (before, e) := (es[..|es| - 1], es[|es| - 1]);
      match e
      case Request(d, rid) =>
        if d != dst then OnLayer(before, dst)
        else if rid.None? || OnLayer(before, dst).None? then rid
        else OnLayer(before, dst)
      case Packet(layer, isKeyFrame) =>
        if isKeyFrame && LastRequest(before, dst) == Some(layer) then Some(layer) else OnLayer(before, dst)
  }

  /** Settled on a layer, or on one and waiting for another. */
  function StateOn(on: Option<Rid>, last: Option<Rid>): Option<SwitchState> {
    match (on, last)
    case (Some(current), Some(target)) =>
      Some(if current == target then Switched(current) else Switching(current, target))
    case _ => None
  }

  lemma {:induction false} StateIsTold(es: seq<Event>, dst: Uuid)
    ensures StateOf(Run(es), dst) == StateOn(OnLayer(es, dst), LastRequest(es, dst))
    ensures OnLayer(es, dst).Some? <==> LastRequest(es, dst).Some?
  {
    if es != [] {
      StateIsTold(es[..|es| - 1], dst);
    }
  }

  /** Over every run, a packet goes to a destination exactly when it is of the layer the destination
      is on, or a key frame of the layer last requested for it. */
  lemma ForwardedExactly(es: seq<Event>, dst: Uuid, layer: Rid, isKeyFrame: bool)
    ensures dst in Receivers(Run(es), layer, isKeyFrame)
       <==> OnLayer(es, dst) == Some(layer) || (isKeyFrame && LastRequest(es, dst) == Some(layer))
  {
    StateIsTold(es, dst);
  }

  /** The events that concern one destination. */
  function Concerning(es: seq<Event>, dst: Uuid): seq<Event> {
    if es == [] then []
    else
      var e := es[|es| - 1];
      Concerning(es[..|es| - 1], dst) + (if e.Packet? || e.dst == dst then [e] else [])
  }

  /** Destinations do not disturb each other: each is where its own requests and the packets alone put it. */
  lemma {:induction false} DestinationsIndependent(es: seq<Event>, dst: Uuid)
    ensures StateOf(Run(es), dst) == StateOf(Run(Concerning(es, dst)), dst)
  {
    if es != [] {
      var (before, e) := (es[..|es| - 1], es[|es| - 1]);
      DestinationsIndependent(before, dst);
      var own := Concerning(es, dst);
      if e.Packet? || e.dst == dst {
        assert own[..|own| - 1] == Concerning(before, dst);
      } else {
        assert own == Concerning(before, dst);
      }
    }
  }
}
