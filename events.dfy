/**
 * The device record the JACK backend fills in, the JACK calls it makes
 * (as trace events), and the exact sequence of calls of one processing
 * cycle and of one deck initialisation.
 */
module Events {
  import opened Layout
  import opened Ports

  /** A registered port's handle: its position in the server's list of ports. */
  type PortId = nat

  /** A `jack_port_t *`: NULL, or the handle of a registered port. */
  datatype PortRef = Null | Port(id: PortId)

  /** A deck's `struct jack_t`: one input and one output port handle per channel. */
  datatype JackPorts = JackPorts(inputPort: seq<PortRef>, outputPort: seq<PortRef>)

  /** The backend-private `local` pointer of a device: NULL or this backend's `struct jack_t`. */
  datatype Local = NoLocal | Local(jack: JackPorts)

  /** Which lifecycle hooks (`start`, `stop`, `clear`) a device carries. */
  datatype Hooks = NoHooks | JackHooks

  /** The generic device record (`struct device_t`), as far as this backend touches it. */
  class Device {
    /** Whether `dv->timecoder` is non-NULL. */
    const timecoder: bool
    var local: Local
    /** Whether `dv->pollfds` is non-NULL. */
    var pollfds: bool
    /** Whether `dv->handle` is non-NULL. */
    var handle: bool
    var hooks: Hooks

    constructor (timecoder: bool, pollfds: bool, handle: bool)
      ensures this.timecoder == timecoder && this.pollfds == pollfds && this.handle == handle
      ensures local == NoLocal && hooks == NoHooks
    {
      this.timecoder := timecoder;
      this.pollfds := pollfds;
      this.handle := handle;
      local := NoLocal;
      hooks := NoHooks;
    }
  }

  /** The calls the backend makes into JACK and into the deck's collaborators. */
  datatype Event =
    | ClientOpen                 // jack_client_open("xwax", ...)
    | SetProcessCallback         // jack_set_process_callback
    | SetShutdownCallback        // jack_on_shutdown
    | GetSampleRate              // jack_get_sample_rate
    | RegisterPort(spec: PortSpec)
    | GetBuffer(port: PortId, nframes: nat)
    | Submit(dv: Device, samples: seq<Short>, nframes: nat, rate: int)   // timecoder_submit
    | Collect(dv: Device, nframes: nat, rate: int)                       // player_collect
    | Activate                   // jack_activate

  /**
   * What the JACK server answers: whether it opens the client, whether it
   * takes the process callback, its sample rate, and which ports it grants.
   */
  datatype Server = Server(opens: bool, takesCallback: bool, sampleRate: int, accepts: PortSpec -> bool)

  /** start_jack_client succeeds. */
  predicate ClientStarts(server: Server)
  {
    server.opens && server.takesCallback
  }

  /** The calls of start_jack_client: each stage runs only when the one before it succeeded. */
  function ClientEvents(server: Server): (r: seq<Event>)
    ensures |r| > 0 && r[0] == ClientOpen
    ensures SetProcessCallback in r <==> server.opens
    ensures GetSampleRate in r <==> ClientStarts(server)
  {
    [ClientOpen] +
    if !server.opens then []
    else [SetProcessCallback] + if !server.takesCallback then [] else [SetShutdownCallback, GetSampleRate]
  }

  /** One `RegisterPort` event per port, in order. */
  function Registrations(s: seq<PortSpec>): (r: seq<Event>)
    ensures |r| == |s| && forall i :: 0 <= i < |s| ==> r[i] == RegisterPort(s[i])
  {
    if s == [] then [] else Registrations(s[..|s| - 1]) + [RegisterPort(s[|s| - 1])]
  }

  /** Registering one more port of `s` adds its event. */
  lemma RegistrationsSnoc(earlier: seq<Event>, s: seq<PortSpec>, k: nat)
    requires k < |s|
    ensures earlier + Registrations(s[..k + 1]) == (earlier + Registrations(s[..k])) + [RegisterPort(s[k])]
  {
    assert s[..k + 1][..k] == s[..k];
    var done := Registrations(s[..k]);
    assert earlier + (done + [RegisterPort(s[k])]) == (earlier + done) + [RegisterPort(s[k])];
  }

  /** jack_init gets as far as register_ports. */
  predicate Registers(clientOpen: bool, server: Server, allocates: bool)
  {
    (clientOpen || ClientStarts(server)) && allocates
  }

  /** jack_init returns 0. */
  predicate InitSucceeds(clientOpen: bool, server: Server, allocates: bool, name: string)
  {
    Registers(clientOpen, server, allocates) &&
    Granted(Schedule(name), server.accepts) == 2 * Channels
  }

  /** The calls of jack_init: client set-up only while there is no client, then the port registrations. */
  function InitEvents(clientOpen: bool, server: Server, allocates: bool, name: string): seq<Event>
  {
    (if clientOpen then [] else ClientEvents(server)) +
    (if Registers(clientOpen, server, allocates)
     then Registrations(Attempted(Schedule(name), server.accepts)) else [])
  }

  /** The calls of jack_init appended to `earlier`: the client set-up first, the port registrations after it. */
  lemma InitEventsAppend(earlier: seq<Event>, clientOpen: bool, server: Server, allocates: bool, name: string)
    ensures var regs := Registrations(Attempted(Schedule(name), server.accepts));
      earlier + InitEvents(clientOpen, server, allocates, name) ==
        if !Registers(clientOpen, server, allocates) then (if clientOpen then earlier else earlier + ClientEvents(server))
        else if clientOpen then earlier + regs
        else (earlier + ClientEvents(server)) + regs
  {
    var regs := Registrations(Attempted(Schedule(name), server.accepts));
    if !Registers(clientOpen, server, allocates) {
      assert InitEvents(clientOpen, server, allocates, name) == if clientOpen then [] else ClientEvents(server);
    } else if clientOpen {
      assert InitEvents(clientOpen, server, allocates, name) == regs;
    } else {
      assert earlier + (ClientEvents(server) + regs) == (earlier + ClientEvents(server)) + regs;
    }
  }

  /**
   * jack_init opens a client exactly when there was none, installs the
   * callback exactly when that open succeeds, and registers some port
   * exactly when it reaches register_ports.
   */
  lemma InitOpensOnlyWithoutClient(clientOpen: bool, server: Server, allocates: bool, name: string)
    ensures ClientOpen in InitEvents(clientOpen, server, allocates, name) <==> !clientOpen
    ensures SetProcessCallback in InitEvents(clientOpen, server, allocates, name) <==> !clientOpen && server.opens
    ensures (exists p :: RegisterPort(p) in InitEvents(clientOpen, server, allocates, name))
        <==> Registers(clientOpen, server, allocates)
  {
    var reg := if Registers(clientOpen, server, allocates)
               then Registrations(Attempted(Schedule(name), server.accepts)) else [];
    var events := InitEvents(clientOpen, server, allocates, name);
    assert forall e :: e in reg ==> e.RegisterPort?;
    if Registers(clientOpen, server, allocates) {
      var s := Schedule(name);
      assert RegisterPort(s[0]) == reg[0] && reg[0] in events;
    } else {
      forall p ensures RegisterPort(p) !in events {
        assert !clientOpen ==> events == ClientEvents(server);
      }
    }
  }

  /**
   * A client whose open succeeded but whose process callback was refused
   * stays set, so a later jack_init skips start_jack_client: neither init
   * succeeds in reading the sample rate, and the second does not open
   * another client.
   */
  lemma CallbackRefusalSticks(first: Server, second: Server, a1: bool, a2: bool, n1: string, n2: string)
    requires first.opens && !first.takesCallback
    ensures !InitSucceeds(false, first, a1, n1)
    ensures InitEvents(false, first, a1, n1) == [ClientOpen, SetProcessCallback]
    ensures ClientOpen !in InitEvents(true, second, a2, n2)
    ensures GetSampleRate !in InitEvents(false, first, a1, n1) + InitEvents(true, second, a2, n2)
  {
    var later := InitEvents(true, second, a2, n2);
    assert later == if Registers(true, second, a2)
                    then Registrations(Attempted(Schedule(n2), second.accepts)) else [];
    assert forall e :: e in later ==> e.RegisterPort?;
  }

  /** When the client fails to open, jack_init fails having called nothing after the open. */
  lemma OpenFailureStopsInit(server: Server, allocates: bool, name: string)
    requires !server.opens
    ensures !InitSucceeds(false, server, allocates, name)
    ensures InitEvents(false, server, allocates, name) == [ClientOpen]
  {
  }

  /** A deck as the process callback sees it: its device record and its ports. */
  datatype Deck = Deck(dv: Device, jack: JackPorts)

  /** All ports of `jack` are registered (no NULL handle) and there is one per channel and direction. */
  predicate Complete(jack: JackPorts)
  {
    |jack.inputPort| == Channels && |jack.outputPort| == Channels &&
    (forall c :: 0 <= c < Channels ==> jack.inputPort[c].Port? && jack.outputPort[c].Port?)
  }

  /** The port handles of `jack` are pairwise different. */
  predicate Distinct(jack: JackPorts)
    requires Complete(jack)
  {
    (forall c, d :: 0 <= c < Channels && 0 <= d < Channels ==> jack.inputPort[c] != jack.outputPort[d]) &&
    (forall c, d :: 0 <= c < d < Channels ==>
      jack.inputPort[c] != jack.inputPort[d] && jack.outputPort[c] != jack.outputPort[d])
  }

  /** The handles of every port of `jack`. */
  function PortIds(jack: JackPorts): (r: set<PortId>)
    requires Complete(jack)
    ensures forall c :: 0 <= c < Channels ==> jack.inputPort[c].id in r && jack.outputPort[c].id in r
  {
    (set c | 0 <= c < Channels :: jack.inputPort[c].id) + (set c | 0 <= c < Channels :: jack.outputPort[c].id)
  }

  /** The `jack_port_get_buffer` calls for `refs`, in order. */
  function Fetches(refs: seq<PortRef>, nframes: nat): (r: seq<Event>)
    requires forall i :: 0 <= i < |refs| ==> refs[i].Port?
    ensures |r| == |refs| && forall i :: 0 <= i < |refs| ==> r[i] == GetBuffer(refs[i].id, nframes)
  {
    if refs == [] then [] else Fetches(refs[..|refs| - 1], nframes) + [GetBuffer(refs[|refs| - 1].id, nframes)]
  }

  /**
   * The calls of process_deck for one deck: fetch the input buffers, submit
   * the interleaved `samples` to the timecoder if there is one, fetch the
   * output buffers, then let the player collect.
   */
  function DeckEvents(d: Deck, samples: seq<Short>, nframes: nat, rate: int): (r: seq<Event>)
    requires Complete(d.jack)
  {
    InputEvents(d, samples, nframes, rate) + OutputEvents(d, nframes, rate)
  }

  /** The timecode half of process_deck's calls: the input buffers, then the submit if the deck has a timecoder. */
  function InputEvents(d: Deck, samples: seq<Short>, nframes: nat, rate: int): (r: seq<Event>)
    requires Complete(d.jack)
  {
    Fetches(d.jack.inputPort, nframes) + (if d.dv.timecoder then [Submit(d.dv, samples, nframes, rate)] else [])
  }

  /** The playback half of process_deck's calls: the output buffers, then the collect. */
  function OutputEvents(d: Deck, nframes: nat, rate: int): (r: seq<Event>)
    requires Complete(d.jack)
  {
    Fetches(d.jack.outputPort, nframes) + [Collect(d.dv, nframes, rate)]
  }

  /** Where an event of process_deck belongs: input fetches, submit, output fetches, collect. */
  function Phase(jack: JackPorts, e: Event): nat
    requires Complete(jack)
  {
    match e
    case GetBuffer(p, _) => if exists c :: 0 <= c < Channels && jack.inputPort[c] == Port(p) then 0 else 2
    case Submit(_, _, _, _) => 1
    case Collect(_, _, _) => 3
    case _ => 4
  }

  predicate IsCollect(e: Event) { e.Collect? }

  predicate IsSubmit(e: Event) { e.Submit? }

  /** The events of `t` that `pick` selects, in order. */
  function Select(t: seq<Event>, pick: Event -> bool): (r: seq<Event>)
    ensures |r| <= |t|
  {
    if t == [] then [] else Select(t[..|t| - 1], pick) + (if pick(t[|t| - 1]) then [t[|t| - 1]] else [])
  }

  lemma {:induction false} SelectAppend(a: seq<Event>, b: seq<Event>, pick: Event -> bool)
    ensures Select(a + b, pick) == Select(a, pick) + Select(b, pick)
  {
    if b == [] {
      assert a + b == a;
    } else {
      assert (a + b)[..|a + b| - 1] == a + b[..|b| - 1];
      SelectAppend(a, b[..|b| - 1], pick);
    }
  }

  /** No port fetch is ever a submit or a collect. */
  lemma {:induction false} SelectFetches(refs: seq<PortRef>, nframes: nat, pick: Event -> bool)
    requires forall i :: 0 <= i < |refs| ==> refs[i].Port?
    requires forall p, n :: !pick(GetBuffer(p, n))
    ensures Select(Fetches(refs, nframes), pick) == []
  {
    if refs != [] {
      SelectFetches(refs[..|refs| - 1], nframes, pick);
    }
  }

  /**
   * process_deck's calls come in four phases, in this order: every input
   * buffer, the submit (only if the deck has a timecoder), every output
   * buffer, and the collect, which is the last call.
   */
  lemma DeckEventsOrdered(d: Deck, samples: seq<Short>, nframes: nat, rate: int)
    requires Complete(d.jack) && Distinct(d.jack)
    ensures var r := DeckEvents(d, samples, nframes, rate);
      && (forall i, j :: 0 <= i < j < |r| ==> Phase(d.jack, r[i]) <= Phase(d.jack, r[j]))
      && r[|r| - 1] == Collect(d.dv, nframes, rate)
  {
    var ins := Fetches(d.jack.inputPort, nframes);
    var sub := if d.dv.timecoder then [Submit(d.dv, samples, nframes, rate)] else [];
    var outs := Fetches(d.jack.outputPort, nframes);
    var r := DeckEvents(d, samples, nframes, rate);
    assert r == ins + sub + outs + [Collect(d.dv, nframes, rate)];
    var a, b, c := |ins|, |ins| + |sub|, |ins| + |sub| + |outs|;
    forall i | 0 <= i < a ensures Phase(d.jack, r[i]) == 0 {
      assert r[i] == ins[i] == GetBuffer(d.jack.inputPort[i].id, nframes);
      assert d.jack.inputPort[i] == Port(d.jack.inputPort[i].id);
    }
    forall i | a <= i < b ensures Phase(d.jack, r[i]) == 1 {
      assert r[i] == sub[i - a];
    }
    forall i | b <= i < c ensures Phase(d.jack, r[i]) == 2 {
      var k := i - b;
      assert r[i] == outs[k] == GetBuffer(d.jack.outputPort[k].id, nframes);
      assert d.jack.outputPort[k] == Port(d.jack.outputPort[k].id);
      assert forall c :: 0 <= c < Channels ==> d.jack.inputPort[c] != d.jack.outputPort[k];
    }
    assert Phase(d.jack, r[c]) == 3;
    PhasesMonotone(d.jack, r, a, b, c);
  }

  lemma PhasesMonotone(jack: JackPorts, r: seq<Event>, a: nat, b: nat, c: nat)
    requires Complete(jack) && a <= b <= c < |r|
    requires forall i :: 0 <= i < a ==> Phase(jack, r[i]) == 0
    requires forall i :: a <= i < b ==> Phase(jack, r[i]) == 1
    requires forall i :: b <= i < c ==> Phase(jack, r[i]) == 2
    requires forall i :: c <= i < |r| ==> Phase(jack, r[i]) == 3
    ensures forall i, j :: 0 <= i < j < |r| ==> Phase(jack, r[i]) <= Phase(jack, r[j])
  {
  }

  /** A single event is selected exactly when `pick` holds of it. */
  lemma SelectOne(e: Event, pick: Event -> bool)
    ensures Select([e], pick) == if pick(e) then [e] else []
  {
    assert [e][..0] == [];
  }

  /** The timecode half of process_deck has no collect, and a submit exactly when the deck has a timecoder. */
  lemma SelectInputEvents(d: Deck, samples: seq<Short>, nframes: nat, rate: int)
    requires Complete(d.jack)
    ensures Select(InputEvents(d, samples, nframes, rate), IsCollect) == []
    ensures Select(InputEvents(d, samples, nframes, rate), IsSubmit)
         == if d.dv.timecoder then [Submit(d.dv, samples, nframes, rate)] else []
  {
    var ins := Fetches(d.jack.inputPort, nframes);
    var sub := if d.dv.timecoder then [Submit(d.dv, samples, nframes, rate)] else [];
    SelectAppend(ins, sub, IsCollect);
    SelectAppend(ins, sub, IsSubmit);
    SelectFetches(d.jack.inputPort, nframes, IsCollect);
    SelectFetches(d.jack.inputPort, nframes, IsSubmit);
    if d.dv.timecoder {
      SelectOne(sub[0], IsCollect);
      SelectOne(sub[0], IsSubmit);
    }
  }

  /** The playback half of process_deck has no submit and exactly one collect. */
  lemma SelectOutputEvents(d: Deck, nframes: nat, rate: int)
    requires Complete(d.jack)
    ensures Select(OutputEvents(d, nframes, rate), IsCollect) == [Collect(d.dv, nframes, rate)]
    ensures Select(OutputEvents(d, nframes, rate), IsSubmit) == []
  {
    var outs := Fetches(d.jack.outputPort, nframes);
    var col := Collect(d.dv, nframes, rate);
    SelectAppend(outs, [col], IsCollect);
    SelectAppend(outs, [col], IsSubmit);
    SelectFetches(d.jack.outputPort, nframes, IsCollect);
    SelectFetches(d.jack.outputPort, nframes, IsSubmit);
    SelectOne(col, IsCollect);
    SelectOne(col, IsSubmit);
  }

  /** process_deck lets the deck's player collect exactly once. */
  lemma DeckCollectsOnce(d: Deck, samples: seq<Short>, nframes: nat, rate: int)
    requires Complete(d.jack)
    ensures Select(DeckEvents(d, samples, nframes, rate), IsCollect) == [Collect(d.dv, nframes, rate)]
  {
    SelectAppend(InputEvents(d, samples, nframes, rate), OutputEvents(d, nframes, rate), IsCollect);
    SelectInputEvents(d, samples, nframes, rate);
    SelectOutputEvents(d, nframes, rate);
  }

  /** process_deck submits to the timecoder exactly once if the deck has one, and never otherwise. */
  lemma DeckSubmitsOnlyWithTimecoder(d: Deck, samples: seq<Short>, nframes: nat, rate: int)
    requires Complete(d.jack)
    ensures Select(DeckEvents(d, samples, nframes, rate), IsSubmit)
         == if d.dv.timecoder then [Submit(d.dv, samples, nframes, rate)] else []
  {
    SelectAppend(InputEvents(d, samples, nframes, rate), OutputEvents(d, nframes, rate), IsSubmit);
    SelectInputEvents(d, samples, nframes, rate);
    SelectOutputEvents(d, nframes, rate);
  }

  /** A deck whose input ports all have a buffer of at least `nframes` samples in `chans`. */
  predicate Fed(jack: JackPorts, chans: seq<seq<Sample>>, nframes: nat)
  {
    Complete(jack) &&
    forall c :: 0 <= c < Channels ==> jack.inputPort[c].id < |chans| && nframes <= |chans[jack.inputPort[c].id]|
  }

  /** The input channel buffers of a deck, picked from the buffers of all ports. */
  function DeckInputs(jack: JackPorts, chans: seq<seq<Sample>>, nframes: nat): (r: seq<seq<Sample>>)
    requires Fed(jack, chans, nframes)
    ensures Covers(r, nframes)
    ensures forall c :: 0 <= c < Channels ==> r[c] == chans[jack.inputPort[c].id]
  {
    seq(Channels, c requires 0 <= c < Channels => chans[jack.inputPort[c].id])
  }

  /**
   * The calls of one process_callback cycle over the registry `reg`, whose
   * port buffers hold `chans`: each deck's calls, deck after deck.
   */
  function CycleEvents(reg: seq<Deck>, chans: seq<seq<Sample>>, nframes: nat, rate: int, toShort: Sample -> Short): seq<Event>
    requires forall i :: 0 <= i < |reg| ==> Fed(reg[i].jack, chans, nframes)
  {
    if reg == [] then []
    else
      var d := reg[|reg| - 1];
      CycleEvents(reg[..|reg| - 1], chans, nframes, rate, toShort)
      + DeckEvents(d, Interleaved(DeckInputs(d.jack, chans, nframes), nframes, toShort), nframes, rate)
  }

  /**
   * A cycle lets every registered deck's player collect exactly once, in
   * registry order.
   */
  lemma {:induction false} CycleVisitsInOrder(reg: seq<Deck>, chans: seq<seq<Sample>>, nframes: nat, rate: int, toShort: Sample -> Short)
    requires forall i :: 0 <= i < |reg| ==> Fed(reg[i].jack, chans, nframes)
    ensures var collects := Select(CycleEvents(reg, chans, nframes, rate, toShort), IsCollect);
      |collects| == |reg| && forall i :: 0 <= i < |reg| ==> collects[i] == Collect(reg[i].dv, nframes, rate)
  {
    if reg != [] {
      var d := reg[|reg| - 1];
      var samples := Interleaved(DeckInputs(d.jack, chans, nframes), nframes, toShort);
      var init := reg[..|reg| - 1];
      CycleVisitsInOrder(init, chans, nframes, rate, toShort);
      SelectAppend(CycleEvents(init, chans, nframes, rate, toShort),
                   DeckEvents(d, samples, nframes, rate), IsCollect);
      DeckCollectsOnce(d, samples, nframes, rate);
      var before := Select(CycleEvents(init, chans, nframes, rate, toShort), IsCollect);
      var collects := Select(CycleEvents(reg, chans, nframes, rate, toShort), IsCollect);
      assert collects == before + [Collect(d.dv, nframes, rate)];
      assert |before| == |init|;
      forall i | 0 <= i < |reg| ensures collects[i] == Collect(reg[i].dv, nframes, rate) {
        if i < |init| {
          assert collects[i] == before[i] && init[i] == reg[i];
        } else {
          assert i == |before| && reg[i] == d;
        }
      }
    }
  }

  /** The submits of a cycle: one per deck with a timecoder, in registry order, each with its deck's interleaved input. */
  lemma {:induction false} CycleSubmits(reg: seq<Deck>, chans: seq<seq<Sample>>, nframes: nat, rate: int, toShort: Sample -> Short)
    requires forall i :: 0 <= i < |reg| ==> Fed(reg[i].jack, chans, nframes)
    ensures Select(CycleEvents(reg, chans, nframes, rate, toShort), IsSubmit)
         == TimecoderSubmits(reg, chans, nframes, rate, toShort)
  {
    if reg != [] {
      var d := reg[|reg| - 1];
      var samples := Interleaved(DeckInputs(d.jack, chans, nframes), nframes, toShort);
      CycleSubmits(reg[..|reg| - 1], chans, nframes, rate, toShort);
      SelectAppend(CycleEvents(reg[..|reg| - 1], chans, nframes, rate, toShort),
                   DeckEvents(d, samples, nframes, rate), IsSubmit);
      DeckSubmitsOnlyWithTimecoder(d, samples, nframes, rate);
    }
  }

  /** One submit per deck that has a timecoder, in registry order. */
  function TimecoderSubmits(reg: seq<Deck>, chans: seq<seq<Sample>>, nframes: nat, rate: int, toShort: Sample -> Short): seq<Event>
    requires forall i :: 0 <= i < |reg| ==> Fed(reg[i].jack, chans, nframes)
  {
    if reg == [] then []
    else
      var d := reg[|reg| - 1];
      TimecoderSubmits(reg[..|reg| - 1], chans, nframes, rate, toShort)
      + (if d.dv.timecoder
         then [Submit(d.dv, Interleaved(DeckInputs(d.jack, chans, nframes), nframes, toShort), nframes, rate)]
         else [])
  }
}
