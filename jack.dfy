/**
 * The JACK backend's module state and operations (jack.c): the one JACK
 * client, opened lazily by the first deck's initialisation, the sample
 * rate it negotiated, the registry of up to four decks in registration
 * order, and the process callback that runs every registered deck once
 * per cycle.
 *
 * The JACK server is not modelled; what it answers comes in as arguments
 * (a `Server`, the port buffers of a cycle, the samples the player
 * renders), and each call made into it or into a deck's collaborators is
 * recorded in the ghost `trace`.
 */
module JackBackend {
  import opened Layout
  import opened Ports
  import opened Events
  import opened Cycle

  /** MAX_DECKS */
  const MaxDecks: nat := 4

  /**
   * The handle register_ports stores for request `i` when `k` requests,
   * starting at server position `base`, were granted: the granted port, or
   * NULL for the refused one.
   */
  function Handle(base: nat, k: nat, i: nat): (p: PortRef)
    requires i <= k
    ensures p.Port? <==> i < k
    ensures p.Port? ==> p.id == base + i
  {
    if i < k then Port(base + i) else Null
  }

  /** The handles register_ports has stored for the channels before `n`, all granted, from server position `base` on. */
  predicate HandlesBefore(base: nat, n: nat, jack: JackPorts)
  {
    && n <= Channels && |jack.inputPort| == Channels && |jack.outputPort| == Channels
    && forall c :: 0 <= c < n ==> jack.inputPort[c] == Port(base + 2 * c) && jack.outputPort[c] == Port(base + 2 * c + 1)
  }

  /** The handles register_ports has stored when `k` requests were granted: the granted ports, then NULL for the refused one. */
  predicate HandlesAt(base: nat, k: nat, jack: JackPorts)
  {
    && |jack.inputPort| == Channels && |jack.outputPort| == Channels
    && (forall c :: 0 <= c < Channels && 2 * c <= k ==> jack.inputPort[c] == Handle(base, k, 2 * c))
    && (forall c :: 0 <= c < Channels && 2 * c + 1 <= k ==> jack.outputPort[c] == Handle(base, k, 2 * c + 1))
  }

  /** Both ports of channel `n` granted: the handles of one more channel are stored. */
  lemma GrantedBoth(base: nat, n: ChannelIndex, jack: JackPorts)
    requires HandlesBefore(base, n, jack)
    ensures HandlesBefore(base, n + 1, jack.(inputPort := jack.inputPort[n := Port(base + 2 * n)])
                                            .(outputPort := jack.outputPort[n := Port(base + 2 * n + 1)]))
  {
  }

  /** Channel `n`'s input port refused: its NULL handle ends the stored handles. */
  lemma RefusedInput(base: nat, n: ChannelIndex, jack: JackPorts)
    requires HandlesBefore(base, n, jack)
    ensures HandlesAt(base, 2 * n, jack.(inputPort := jack.inputPort[n := Null]))
  {
  }

  /** Channel `n`'s output port refused after its input port was granted. */
  lemma RefusedOutput(base: nat, n: ChannelIndex, jack: JackPorts)
    requires HandlesBefore(base, n, jack)
    ensures HandlesAt(base, 2 * n + 1, jack.(inputPort := jack.inputPort[n := Port(base + 2 * n)])
                                           .(outputPort := jack.outputPort[n := Null]))
  {
  }

  /**
   * The buffers JACK hands out in one cycle, indexed by port handle: one
   * per registered port, each of at least `nframes` samples, no two the
   * same array.
   */
  predicate CycleBuffers(buffers: seq<array<Sample>>, nports: nat, nframes: nat)
  {
    |buffers| == nports &&
    (forall id :: 0 <= id < |buffers| ==> nframes <= buffers[id].Length) &&
    (forall i, j :: 0 <= i < j < |buffers| ==> buffers[i] != buffers[j])
  }

  /** The contents of the input buffers of `jack`, channel by channel. */
  ghost function InputContents(jack: JackPorts, buffers: seq<array<Sample>>): (r: seq<seq<Sample>>)
    requires Complete(jack) && forall c :: 0 <= c < Channels ==> jack.inputPort[c].id < |buffers|
    reads buffers
    ensures |r| == Channels && forall c :: 0 <= c < Channels ==> r[c] == buffers[jack.inputPort[c].id][..]
  {
    seq(Channels, c reads buffers requires 0 <= c < Channels => buffers[jack.inputPort[c].id][..])
  }

  /** The buffers of the output ports of `jack`, the ones process_deck writes, in channel order. */
  function OutputBuffers(jack: JackPorts, buffers: seq<array<Sample>>): (r: seq<array<Sample>>)
    requires Complete(jack) && forall c :: 0 <= c < Channels ==> jack.outputPort[c].id < |buffers|
    ensures |r| == Channels && forall c :: 0 <= c < Channels ==> r[c] == buffers[jack.outputPort[c].id]
  {
    seq(Channels, c requires 0 <= c < Channels => buffers[jack.outputPort[c].id])
  }

  /**
   * The ports of `jack` each have their own buffer of at least `nframes`
   * samples in `buffers`, and no other port shares one of its output buffers.
   */
  predicate Wired(jack: JackPorts, buffers: seq<array<Sample>>, nframes: nat)
  {
    && Complete(jack) && Distinct(jack)
    && (forall c :: 0 <= c < Channels ==>
         && jack.inputPort[c].id < |buffers| && nframes <= buffers[jack.inputPort[c].id].Length
         && jack.outputPort[c].id < |buffers| && nframes <= buffers[jack.outputPort[c].id].Length)
    && (forall c, d :: 0 <= c < d < Channels ==> buffers[jack.outputPort[c].id] != buffers[jack.outputPort[d].id])
    && (forall id, c :: 0 <= id < |buffers| && 0 <= c < Channels && id != jack.outputPort[c].id ==>
         buffers[id] != buffers[jack.outputPort[c].id])
  }

  /** The ports of `jack` are among `known`, each with the direction its role needs. */
  predicate OwnedBy(jack: JackPorts, known: seq<PortSpec>)
  {
    Complete(jack) && Distinct(jack) &&
    forall c :: 0 <= c < Channels ==>
      && jack.inputPort[c].id < |known| && known[jack.inputPort[c].id].direction == Input
      && jack.outputPort[c].id < |known| && known[jack.outputPort[c].id].direction == Output
  }

  /** Registering more ports keeps the ports a deck owns. */
  lemma OwnedByGrows(jack: JackPorts, known: seq<PortSpec>, more: seq<PortSpec>)
    requires OwnedBy(jack, known)
    ensures OwnedBy(jack, known + more)
  {
  }

  /** The output buffers of a deck are among the cycle's buffers. */
  lemma OutputsAmongBuffers(jack: JackPorts, buffers: seq<array<Sample>>)
    requires Complete(jack) && forall c :: 0 <= c < Channels ==> jack.outputPort[c].id < |buffers|
    ensures forall b :: b in OutputBuffers(jack, buffers) ==> b in buffers
  {
    var outs := OutputBuffers(jack, buffers);
    forall b | b in outs ensures b in buffers {
      var c :| 0 <= c < |outs| && outs[c] == b;
      assert buffers[jack.outputPort[c].id] == b;
    }
  }

  /** The handles register_ports stores when the server grants every port it asks for, from position `base` on. */
  function Allotted(base: nat): (jack: JackPorts)
    ensures Complete(jack) && Distinct(jack)
    ensures forall c :: 0 <= c < Channels ==>
      jack.inputPort[c] == Port(base + 2 * c) && jack.outputPort[c] == Port(base + 2 * c + 1)
  {
    JackPorts(seq(Channels, (c: nat) => Port(base + 2 * c)), seq(Channels, (c: nat) => Port(base + 2 * c + 1)))
  }

  /** With no refusal, the handles register_ports stores are exactly the allotted ones. */
  lemma AllGrantedHandles(base: nat, jack: JackPorts)
    requires HandlesAt(base, 2 * Channels, jack)
    ensures jack == Allotted(base)
  {
    var a := Allotted(base);
    assert jack.inputPort == a.inputPort;
    assert jack.outputPort == a.outputPort;
  }

  /**
   * The ports allotted from the end of `known` on, once the schedule of
   * `name` is registered after `known`, are owned with the right
   * directions, and none of them is among `known`.
   */
  lemma AllottedOwned(known: seq<PortSpec>, name: string)
    ensures OwnedBy(Allotted(|known|), known + Schedule(name))
    ensures forall id :: id in PortIds(Allotted(|known|)) ==> |known| <= id
  {
    var jack, all := Allotted(|known|), known + Schedule(name);
    forall c | 0 <= c < Channels
      ensures all[jack.inputPort[c].id].direction == Input && all[jack.outputPort[c].id].direction == Output
    {
      ScheduleAt(name, c);
      assert all[|known| + 2 * c] == Schedule(name)[2 * c];
      assert all[|known| + 2 * c + 1] == Schedule(name)[2 * c + 1];
    }
  }

  /** The ports a deck owns among `known` have handles below `|known|`. */
  lemma IdsBelow(jack: JackPorts, known: seq<PortSpec>)
    requires OwnedBy(jack, known)
    ensures forall id :: id in PortIds(jack) ==> id < |known|
  {
  }

  /** Two different handles have different buffers. */
  lemma Apart(buffers: seq<array<Sample>>, i: nat, j: nat)
    requires i < |buffers| && j < |buffers| && i != j
    requires forall i, j :: 0 <= i < j < |buffers| ==> buffers[i] != buffers[j]
    ensures buffers[i] != buffers[j]
  {
    if j < i {
      assert buffers[j] != buffers[i];
    }
  }

  /** Before deck `n` runs, its input buffers hold what they held when the cycle started. */
  lemma InputsNow(reg: seq<Deck>, chans: seq<seq<Sample>>, buffers: seq<array<Sample>>, rendered: seq<seq<Short>>,
                  nframes: nat, toFloat: Short -> Sample, n: nat)
    requires CycleDone(reg, chans, Contents(buffers), rendered, nframes, toFloat, n) && n < |reg|
    ensures InputContents(reg[n].jack, buffers) == DeckInputs(reg[n].jack, chans, nframes)
  {
    InputsUntouched(reg, chans, Contents(buffers), rendered, nframes, toFloat, n);
  }

  /**
   * Deck `n` having written only its own output buffers, which held
   * `before`, the first `n + 1` decks have run.
   */
  lemma DeckRan(reg: seq<Deck>, chans: seq<seq<Sample>>, before: seq<seq<Sample>>, buffers: seq<array<Sample>>,
                rendered: seq<seq<Short>>, nframes: nat, toFloat: Short -> Sample, n: nat)
    requires CycleDone(reg, chans, before, rendered, nframes, toFloat, n) && n < |reg| && |buffers| == |before|
    requires forall c :: 0 <= c < Channels ==>
      var o := reg[n].jack.outputPort[c].id;
      nframes <= buffers[o].Length && buffers[o][..nframes] == Channel(rendered[n], nframes, c, toFloat) && buffers[o][nframes..] == before[o][nframes..]
    requires forall id :: 0 <= id < |buffers| && !IsOutputOf(reg[n].jack, id) ==> buffers[id][..] == before[id]
    ensures CycleDone(reg, chans, Contents(buffers), rendered, nframes, toFloat, n + 1)
  {
    DeckStep(reg, chans, before, Contents(buffers), rendered, nframes, toFloat, n);
  }

  /** Appending two runs of calls one after the other is appending their concatenation. */
  lemma AppendAssoc(a: seq<Event>, b: seq<Event>, c: seq<Event>)
    ensures (a + b) + c == a + (b + c)
  {
  }

  /**
   * The module globals of jack.c: `client` (here: whether it is non-NULL),
   * `rate`, `decks` and `device[MAX_DECKS]`, together with the server's list
   * of registered ports (a port's handle is its position in it).
   */
  class Jack {
    var client: bool
    var rate: int
    var decks: nat
    const device: array<Device?>
    var ports: seq<PortSpec>
    ghost var trace: seq<Event>

    /**
     * The registry invariant, with `known` as the server's list of ports: at
     * most MaxDecks decks, each with all its ports among `known`, and two
     * different devices never share a port.
     */
    ghost predicate ValidAt(known: seq<PortSpec>)
      reads this`decks, device, device[..]
    {
      device.Length == MaxDecks && decks <= MaxDecks &&
      (forall i :: 0 <= i < decks ==> device[i] != null && device[i].local.Local? && OwnedBy(device[i].local.jack, known)) &&
      (forall i, j :: 0 <= i < decks && 0 <= j < decks && device[i] != device[j] ==>
        PortIds(device[i].local.jack) !! PortIds(device[j].local.jack))
    }

    /** The registry invariant over the ports the server has registered. */
    ghost predicate Valid()
      reads this`decks, this`ports, device, device[..]
    {
      ValidAt(ports)
    }

    /** The registered decks, in registration order. */
    ghost function Registry(): (r: seq<Deck>)
      requires Valid()
      reads this`decks, this`ports, device, device[..]
      ensures |r| == decks
      ensures forall i :: 0 <= i < decks ==> r[i] == Deck(device[i], device[i].local.jack)
    {
      seq(decks, i requires 0 <= i < device.Length && device[i] != null && device[i].local.Local?
                     reads device, device[..] =>
        Deck(device[i], device[i].local.jack))
    }

    /** The state of jack.c before any deck: no client, no decks. */
    constructor ()
      ensures Valid() && fresh(device)
      ensures !client && rate == 0 && decks == 0 && ports == [] && trace == []
    {
      client := false;
      rate := 0;
      decks := 0;
      device := new Device?[MaxDecks];
      ports := [];
      trace := [];
    }

    /**
     * start_jack_client: open the client, install the process callback and
     * the shutdown callback, and read the sample rate. A failed open leaves
     * `client` NULL; a failed callback installation leaves it set.
     */
    method StartJackClient(server: Server) returns (r: int)
      modifies this`client, this`rate, this`trace
      ensures client == server.opens
      ensures r == (if ClientStarts(server) then 0 else -1)
      ensures rate == (if ClientStarts(server) then server.sampleRate else old(rate))
      ensures trace == old(trace) + ClientEvents(server)
    {
      trace := trace + [ClientOpen];
      client := server.opens;
      if !client {
        return -1;
      }
      trace := trace + [SetProcessCallback];
      if !server.takesCallback {
        return -1;
      }
      trace := trace + [SetShutdownCallback];
      trace := trace + [GetSampleRate];
      rate := server.sampleRate;
      return 0;
    }

    /** jack_port_register: the server grants the port, adding it to its list, or refuses it (NULL). */
    method PortRegister(spec: PortSpec, accepts: PortSpec -> bool) returns (p: PortRef)
      requires client
      modifies this`ports, this`trace
      ensures p == (if accepts(spec) then Port(|old(ports)|) else Null)
      ensures ports == old(ports) + (if accepts(spec) then [spec] else [])
      ensures trace == old(trace) + [RegisterPort(spec)]
    {
      trace := trace + [RegisterPort(spec)];
      if accepts(spec) {
        p := Port(|ports|);
        ports := ports + [spec];
      } else {
        p := Null;
      }
    }

    /**
     * The first `i` ports of the schedule `s` were asked for and granted,
     * starting from the server's port list `base` and the trace `trace0`.
     */
    ghost predicate Asked(base: seq<PortSpec>, trace0: seq<Event>, s: seq<PortSpec>, accepts: PortSpec -> bool, i: nat)
      reads this`ports, this`trace
    {
      && i <= |s|
      && ports == base + s[..i]
      && trace == trace0 + Registrations(s[..i])
      && forall j :: 0 <= j < i ==> accepts(s[j])
    }

    /**
     * The ports of `s` were asked for up to and including the first refusal
     * (all of them without one), and the ones granted are registered.
     */
    ghost predicate Reached(base: seq<PortSpec>, trace0: seq<Event>, s: seq<PortSpec>, accepts: PortSpec -> bool)
      reads this`ports, this`trace
    {
      && ports == base + s[..Granted(s, accepts)]
      && trace == trace0 + Registrations(Attempted(s, accepts))
    }

    /**
     * What register_ports leaves behind, starting from the server's port list
     * `base` and the trace `trace0`: with `s` the deck's schedule and `k` the
     * number of its ports the server grants, the first `k` ports of `s` are
     * registered, `s` was asked for up to and including the first refusal,
     * the handles of the granted ports and NULL for the refused one are
     * stored in `jack`, and the result is 0 exactly when nothing was refused.
     */
    ghost predicate Registered(base: seq<PortSpec>, trace0: seq<Event>, name: string, accepts: PortSpec -> bool,
                               r: int, jack: JackPorts)
      reads this`ports, this`trace
    {
      var s := Schedule(name);
      var k := Granted(s, accepts);
      && r == (if k == |s| then 0 else -1)
      && Reached(base, trace0, s, accepts)
      && HandlesAt(|base|, k, jack)
    }

    /** register_ports has registered the first `n` channels of the schedule `s` without a refusal. */
    ghost predicate Progress(base: seq<PortSpec>, trace0: seq<Event>, s: seq<PortSpec>, accepts: PortSpec -> bool,
                             n: nat, jack: JackPorts)
      reads this`ports, this`trace
    {
      && n <= Channels && |s| == 2 * Channels
      && Asked(base, trace0, s, accepts, 2 * n)
      && HandlesBefore(|base|, n, jack)
    }

    /**
     * register_ports: register each channel's input port, then its output
     * port, storing each handle in `jack` (whose prior content, `jack0`, is
     * the uninitialised allocation); stop at the first refusal, leaving the
     * ports granted before it registered.
     */
    method RegisterPorts(jack0: JackPorts, name: string, accepts: PortSpec -> bool)
      returns (r: int, jack: JackPorts)
      requires client
      requires |jack0.inputPort| == Channels && |jack0.outputPort| == Channels
      requires |name| <= MaxDeckName
      modifies this`ports, this`trace
      ensures Registered(old(ports), old(trace), name, accepts, r, jack)
    {
      ghost var s := Schedule(name);
      jack := jack0;
      for n := 0 to Channels
        invariant Progress(old(ports), old(trace), s, accepts, n, jack)
      {
        r, jack := RegisterChannel(name, accepts, n, jack, old(ports), old(trace));
        if r == -1 {
          return;
        }
      }
      AllGranted(s, accepts);
      assert s[..2 * Channels] == s;
      r := 0;
    }

    /**
     * One iteration of register_ports' loop: register channel `n`'s input
     * port and, if it was granted, its output port.
     */
    method RegisterChannel(name: string, accepts: PortSpec -> bool, n: ChannelIndex, jack0: JackPorts,
                           ghost base: seq<PortSpec>, ghost trace0: seq<Event>)
      returns (r: int, jack: JackPorts)
      requires client && Progress(base, trace0, Schedule(name), accepts, n, jack0)
      modifies this`ports, this`trace
      ensures r == 0 || r == -1
      ensures r == 0 ==> Progress(base, trace0, Schedule(name), accepts, n + 1, jack)
      ensures r == -1 ==> Registered(base, trace0, name, accepts, r, jack)
    {
      ScheduleAt(name, n);
      var p := Request(PortSpec(name, Input, n), accepts, Schedule(name), 2 * n, base, trace0);
      jack := jack0.(inputPort := jack0.inputPort[n := p]);
      if p == Null {
        RefusedInput(|base|, n, jack0);
        return -1, jack;
      }
      p := Request(PortSpec(name, Output, n), accepts, Schedule(name), 2 * n + 1, base, trace0);
      jack := jack.(outputPort := jack.outputPort[n := p]);
      if p == Null {
        RefusedOutput(|base|, n, jack0);
        return -1, jack;
      }
      GrantedBoth(|base|, n, jack0);
      return 0, jack;
    }

    /**
     * One jack_port_register call of register_ports, for port `i` of the
     * schedule `s` when all ports before it were granted: either the port is
     * granted and the next one may follow, or it is the first refusal and
     * registering stops with it.
     */
    method Request(spec: PortSpec, accepts: PortSpec -> bool,
                   ghost s: seq<PortSpec>, ghost i: nat, ghost ports0: seq<PortSpec>, ghost trace0: seq<Event>)
      returns (p: PortRef)
      requires client && i < |s| && s[i] == spec && Asked(ports0, trace0, s, accepts, i)
      modifies this`ports, this`trace
      ensures p == (if accepts(spec) then Port(|ports0| + i) else Null)
      ensures p.Port? ==> Asked(ports0, trace0, s, accepts, i + 1)
      ensures p.Null? ==> Granted(s, accepts) == i && Reached(ports0, trace0, s, accepts)
    {
      p := PortRegister(spec, accepts);
      RegistrationsSnoc(trace0, s, i);
      if p.Null? {
        RefusedAt(s, accepts, i);
      } else {
        assert s[..i + 1] == s[..i] + [spec];
      }
    }

    /** Registering more ports keeps the registry invariant. */
    lemma ValidGrows(known: seq<PortSpec>, more: seq<PortSpec>)
      requires ValidAt(known)
      ensures ValidAt(known + more)
    {
      forall i | 0 <= i < decks
        ensures OwnedBy(device[i].local.jack, known + more)
      {
        OwnedByGrows(device[i].local.jack, known, more);
      }
    }

    /**
     * `dv` carries the JACK hooks and the ports allotted from server
     * position `base` on, and is appended to the registry that had the
     * `oldDecks` decks of `oldDevice`.
     */
    ghost predicate Enrolled(dv: Device, base: nat, oldDevice: seq<Device?>, oldDecks: nat)
      reads this`decks, device, dv
    {
      && oldDecks < |oldDevice| && decks == oldDecks + 1 && device[..] == oldDevice[oldDecks := dv]
      && dv.local == Local(Allotted(base)) && !dv.pollfds && !dv.handle && dv.hooks == JackHooks
    }

    /**
     * jack_init: create the client if there is none yet, allocate the
     * deck's `struct jack_t` (`allocates` says whether malloc succeeds; its
     * uninitialised content is `garbage`), register the deck's ports, and on
     * success install the JACK hooks on `dv` and append it to the registry.
     * A failure after the client was created leaves the client, and any
     * ports granted before a refusal, in place.
     */
    method JackInit(dv: Device, name: string, server: Server, allocates: bool, garbage: JackPorts) returns (r: int)
      requires Valid() && (|name| <= MaxDeckName || !Registers(client, server, allocates))
      requires |garbage.inputPort| == Channels && |garbage.outputPort| == Channels
      requires decks < MaxDecks || !InitSucceeds(client, server, allocates, name)
      modifies this`client, this`rate, this`ports, this`trace, this`decks, device, dv
      ensures Valid()
      ensures r == (if InitSucceeds(old(client), server, allocates, name) then 0 else -1)
      ensures trace == old(trace) + InitEvents(old(client), server, allocates, name)
      ensures client == (old(client) || server.opens)
      ensures rate == (if !old(client) && ClientStarts(server) then server.sampleRate else old(rate))
      ensures ports == old(ports) + (if Registers(old(client), server, allocates)
                                     then Schedule(name)[..Granted(Schedule(name), server.accepts)] else [])
      ensures r == 0 ==> Enrolled(dv, |old(ports)|, old(device[..]), old(decks))
      ensures r != 0 ==> decks == old(decks) && device[..] == old(device[..]) && unchanged(dv)
    {
      InitEventsAppend(trace, client, server, allocates, name);
      r := EnsureClient(server);
      if r == 0 {
        r := AddDeck(dv, name, server.accepts, allocates, garbage);
      }
    }

    /** The first step of jack_init: start the client unless there is one already. */
    method EnsureClient(server: Server) returns (r: int)
      requires Valid()
      modifies this`client, this`rate, this`trace
      ensures Valid() && unchanged(this`ports, this`decks)
      ensures r == (if old(client) || ClientStarts(server) then 0 else -1)
      ensures client == (old(client) || server.opens)
      ensures rate == (if !old(client) && ClientStarts(server) then server.sampleRate else old(rate))
      ensures trace == (if old(client) then old(trace) else old(trace) + ClientEvents(server))
    {
      r := 0;
      if !client {
        r := StartJackClient(server);
      }
    }

    /**
     * jack_init once the client is there and `struct jack_t` is allocated:
     * register the deck's ports and, when all are granted, enrol `dv`.
     */
    method AddDeck(dv: Device, name: string, accepts: PortSpec -> bool, allocates: bool, garbage: JackPorts) returns (r: int)
      requires client && Valid() && (|name| <= MaxDeckName || !allocates)
      requires |garbage.inputPort| == Channels && |garbage.outputPort| == Channels
      requires decks < MaxDecks || !allocates || Granted(Schedule(name), accepts) < 2 * Channels
      modifies this`ports, this`trace, this`decks, device, dv
      ensures Valid()
      ensures r == (if allocates && Granted(Schedule(name), accepts) == 2 * Channels then 0 else -1)
      ensures trace == old(trace) + (if allocates then Registrations(Attempted(Schedule(name), accepts)) else [])
      ensures ports == old(ports) + (if allocates then Schedule(name)[..Granted(Schedule(name), accepts)] else [])
      ensures r == 0 ==> Enrolled(dv, |old(ports)|, old(device[..]), old(decks))
      ensures r != 0 ==> decks == old(decks) && device[..] == old(device[..]) && unchanged(dv)
    {
      if !allocates {
        return -1;
      }
      ghost var base := ports;
      ghost var s := Schedule(name);
      var jack;
      r, jack := RegisterPorts(garbage, name, accepts);
      if r == -1 {
        ValidGrows(base, s[..Granted(s, accepts)]);
        return -1;
      }
      assert s[..Granted(s, accepts)] == s;
      AllGrantedHandles(|base|, jack);
      AllottedOwned(base, name);
      ValidGrows(base, s);
      Enrol(dv, jack, base);
      return 0;
    }

    /**
     * The tail of jack_init: point `dv` at its ports, clear its poll
     * descriptors and handle, install the hooks, and append it to the
     * registry. The deck's ports are the ones registered after `base`.
     */
    method Enrol(dv: Device, jack: JackPorts, ghost base: seq<PortSpec>)
      requires Valid() && ValidAt(base) && decks < MaxDecks
      requires OwnedBy(jack, ports) && forall id :: id in PortIds(jack) ==> |base| <= id
      modifies this`decks, device, dv
      ensures Valid()
      ensures decks == old(decks) + 1 && device[..] == old(device[..])[old(decks) := dv]
      ensures dv.local == Local(jack) && !dv.pollfds && !dv.handle && dv.hooks == JackHooks
      ensures dv !in old(device[..decks]) ==> Registry() == old(Registry()) + [Deck(dv, jack)]
    {
      ghost var n, reg := decks, Registry();
      forall i | 0 <= i < n
        ensures OwnedBy(reg[i].jack, ports) && forall id :: id in PortIds(reg[i].jack) ==> id < |base|
      {
        IdsBelow(reg[i].jack, base);
      }
      dv.local := Local(jack);
      dv.pollfds := false;
      dv.handle := false;
      dv.hooks := JackHooks;
      device[decks] := dv;
      decks := decks + 1;
      forall i | 0 <= i < decks
        ensures device[i] != null && device[i].local.Local? && OwnedBy(device[i].local.jack, ports)
        ensures device[i] != dv ==> i < n && device[i] == reg[i].dv && device[i].local.jack == reg[i].jack
      {
      }
      forall i, j | 0 <= i < decks && 0 <= j < decks && device[i] != device[j]
        ensures PortIds(device[i].local.jack) !! PortIds(device[j].local.jack)
      {
        if device[i] == dv {
          assert PortIds(reg[j].jack) !! PortIds(jack);
        } else if device[j] == dv {
          assert PortIds(reg[i].jack) !! PortIds(jack);
        } else {
          assert PortIds(reg[i].jack) !! PortIds(reg[j].jack);
        }
      }
    }

    /** start: activate the client; -1 when JACK refuses. */
    method Start(activates: bool) returns (r: int)
      requires client
      modifies this`trace
      ensures trace == old(trace) + [Activate]
      ensures r == (if activates then 0 else -1)
    {
      trace := trace + [Activate];
      if !activates {
        return -1;
      }
      return 0;
    }

    /** jack_port_get_buffer: the buffer JACK holds for `port` in this cycle. */
    method PortGetBuffer(port: PortRef, nframes: nat, buffers: seq<array<Sample>>) returns (b: array<Sample>)
      requires port.Port? && port.id < |buffers|
      modifies this`trace
      ensures b == buffers[port.id]
      ensures trace == old(trace) + [GetBuffer(port.id, nframes)]
    {
      trace := trace + [GetBuffer(port.id, nframes)];
      b := buffers[port.id];
    }

    /** The buffers of `refs`, fetched in order, as process_deck fills `jbuf`. */
    method FetchBuffers(refs: seq<PortRef>, nframes: nat, buffers: seq<array<Sample>>) returns (jbuf: seq<array<Sample>>)
      requires forall c :: 0 <= c < |refs| ==> refs[c].Port? && refs[c].id < |buffers|
      modifies this`trace
      ensures |jbuf| == |refs| && forall c :: 0 <= c < |refs| ==> jbuf[c] == buffers[refs[c].id]
      ensures trace == old(trace) + Fetches(refs, nframes)
    {
      jbuf := [];
      for n := 0 to |refs|
        invariant |jbuf| == n && forall c :: 0 <= c < n ==> jbuf[c] == buffers[refs[c].id]
        invariant trace == old(trace) + Fetches(refs[..n], nframes)
      {
        var b := PortGetBuffer(refs[n], nframes, buffers);
        assert refs[..n + 1][..n] == refs[..n];
        jbuf := jbuf + [b];
      }
      assert refs[..|refs|] == refs;
    }

    /** timecoder_submit: hand the interleaved timecode input to the deck's timecoder. */
    method TimecoderSubmit(dv: Device, samples: seq<Short>, nframes: nat)
      modifies this`trace
      ensures trace == old(trace) + [Submit(dv, samples, nframes, rate)]
    {
      trace := trace + [Submit(dv, samples, nframes, rate)];
    }

    /** player_collect: the deck's player writes the interleaved samples it `rendered` to the front of `buf`. */
    method PlayerCollect(dv: Device, buf: array<Short>, nframes: nat, rendered: seq<Short>)
      requires |rendered| <= buf.Length
      modifies this`trace, buf
      ensures buf[..|rendered|] == rendered && buf[|rendered|..] == old(buf[|rendered|..])
      ensures trace == old(trace) + [Collect(dv, nframes, rate)]
    {
      trace := trace + [Collect(dv, nframes, rate)];
      for i := 0 to |rendered|
        modifies buf
        invariant buf[..i] == rendered[..i] && buf[|rendered|..] == old(buf[|rendered|..])
      {
        buf[i] := rendered[i];
      }
    }

    /**
     * The first half of process_deck: fetch the deck's input buffers,
     * interleave them into a fresh `buf` and submit them to the timecoder
     * if the deck has one.
     */
    method TimecodeInput(dv: Device, jack: JackPorts, nframes: nat, buffers: seq<array<Sample>>, toShort: Sample -> Short)
      returns (buf: array<Short>)
      requires Complete(jack) && nframes <= MaxFrames
      requires forall c :: 0 <= c < Channels ==>
        jack.inputPort[c].id < |buffers| && nframes <= buffers[jack.inputPort[c].id].Length
      modifies this`trace
      ensures fresh(buf) && buf.Length == Channels * MaxFrames
      ensures buf[..Channels * nframes] == Interleaved(old(InputContents(jack, buffers)), nframes, toShort)
      ensures trace == old(trace) + InputEvents(Deck(dv, jack), buf[..Channels * nframes], nframes, rate)
    {
      var jin := FetchBuffers(jack.inputPort, nframes, buffers);
      assert Contents(jin) == InputContents(jack, buffers);
      buf := new Short[Channels * MaxFrames];
      Interleave(buf, jin, nframes, toShort);
      if dv.timecoder {
        TimecoderSubmit(dv, buf[..Channels * nframes], nframes);
      }
    }

    /**
     * The second half of process_deck: fetch the deck's output buffers, let
     * the player render into `buf` and uninterleave it into them.
     */
    method AudioOutput(dv: Device, jack: JackPorts, buf: array<Short>, nframes: nat, buffers: seq<array<Sample>>,
                       rendered: seq<Short>, toFloat: Short -> Sample)
      requires Complete(jack) && Distinct(jack) && buf.Length == Channels * MaxFrames
      requires nframes <= MaxFrames && |rendered| == Channels * nframes
      requires forall c :: 0 <= c < Channels ==>
        jack.outputPort[c].id < |buffers| && nframes <= buffers[jack.outputPort[c].id].Length
      requires forall c, d :: 0 <= c < d < Channels ==> buffers[jack.outputPort[c].id] != buffers[jack.outputPort[d].id]
      modifies this`trace, buf, OutputBuffers(jack, buffers)
      ensures trace == old(trace) + OutputEvents(Deck(dv, jack), nframes, rate)
      ensures forall c :: 0 <= c < Channels ==>
        var out := buffers[jack.outputPort[c].id];
        out[..nframes] == Channel(rendered, nframes, c, toFloat) && out[nframes..] == old(out[nframes..])
    {
      var jout := FetchBuffers(jack.outputPort, nframes, buffers);
      PlayerCollect(dv, buf, nframes, rendered);
      Uninterleave(jout, buf, nframes, toFloat);
      forall c | 0 <= c < Channels
        ensures Channel(buf[..], nframes, c, toFloat) == Channel(rendered, nframes, c, toFloat)
      {
        assert buf[..][..Channels * nframes] == rendered[..Channels * nframes];
        ChannelLocal(buf[..], rendered, nframes, c, toFloat);
      }
    }

    /**
     * process_deck: the deck's timecode input goes to its timecoder, and
     * what its player renders goes out through its output ports.
     */
    method ProcessDeck(dv: Device, nframes: nat, buffers: seq<array<Sample>>, rendered: seq<Short>,
                       toShort: Sample -> Short, toFloat: Short -> Sample, ghost jack: JackPorts)
      requires dv.local == Local(jack) && Wired(jack, buffers, nframes)
      requires nframes <= MaxFrames && |rendered| == Channels * nframes
      modifies this`trace, buffers
      ensures trace == old(trace) + DeckEvents(Deck(dv, jack),
        Interleaved(old(InputContents(jack, buffers)), nframes, toShort), nframes, rate)
      ensures forall c :: 0 <= c < Channels ==>
        var o := jack.outputPort[c].id;
        buffers[o][..nframes] == Channel(rendered, nframes, c, toFloat) && buffers[o][nframes..] == old(Contents(buffers))[o][nframes..]
      ensures forall id :: 0 <= id < |buffers| && !IsOutputOf(jack, id) ==> buffers[id][..] == old(Contents(buffers))[id]
    {
      OutputsAmongBuffers(jack, buffers);
      var wiring := dv.local.jack;
      var buf := TimecodeInput(dv, wiring, nframes, buffers, toShort);
      ghost var input := InputEvents(Deck(dv, jack), buf[..Channels * nframes], nframes, rate);
      AudioOutput(dv, wiring, buf, nframes, buffers, rendered, toFloat);
      AppendAssoc(old(trace), input, OutputEvents(Deck(dv, jack), nframes, rate));
    }

    /** The ports of a registered deck each have their own buffer of at least `nframes` samples among the cycle's buffers. */
    lemma OwnedWiring(jack: JackPorts, buffers: seq<array<Sample>>, nframes: nat)
      requires OwnedBy(jack, ports) && CycleBuffers(buffers, |ports|, nframes)
      ensures Wired(jack, buffers, nframes)
    {
      forall c, d | 0 <= c < d < Channels
        ensures buffers[jack.outputPort[c].id] != buffers[jack.outputPort[d].id]
      {
        Apart(buffers, jack.outputPort[c].id, jack.outputPort[d].id);
      }
      forall id, c | 0 <= id < |buffers| && 0 <= c < Channels && id != jack.outputPort[c].id
        ensures buffers[id] != buffers[jack.outputPort[c].id]
      {
        Apart(buffers, id, jack.outputPort[c].id);
      }
    }

    /**
     * process_callback: run process_deck on every registered deck, in
     * registration order, and return 0. `rendered[i]` is what the player of
     * deck `i` renders in this cycle.
     */
    method ProcessCallback(nframes: nat, buffers: seq<array<Sample>>, rendered: seq<seq<Short>>,
                           toShort: Sample -> Short, toFloat: Short -> Sample)
      returns (r: int)
      requires Valid() && CycleBuffers(buffers, |ports|, nframes) && nframes <= MaxFrames
      requires |rendered| == decks && forall i :: 0 <= i < decks ==> |rendered[i]| == Channels * nframes
      modifies this`trace, buffers
      ensures r == 0
      ensures CycleDone(old(Registry()), old(Contents(buffers)), Contents(buffers), rendered, nframes, toFloat, decks)
      ensures trace == old(trace) + CycleEvents(old(Registry()), old(Contents(buffers)), nframes, rate, toShort)
    {
      ghost var chans := Contents(buffers);
      ghost var reg := Registry();
      CycleStart(buffers, nframes, rendered, toFloat);
      assert reg[..0] == [];
      assert reg[..decks] == reg;
      for n := 0 to decks
        invariant trace == old(trace) + CycleEvents(reg[..n], chans, nframes, rate, toShort)
        invariant CycleDone(reg, chans, Contents(buffers), rendered, nframes, toFloat, n)
      {
        RunDeck(device[n], n, nframes, buffers, rendered, toShort, toFloat, reg, chans, old(trace));
      }
      return 0;
    }

    /** One iteration of process_callback's loop: process_deck on deck `n`. */
    method RunDeck(dv: Device, n: nat, nframes: nat, buffers: seq<array<Sample>>, rendered: seq<seq<Short>>,
                   toShort: Sample -> Short, toFloat: Short -> Sample,
                   ghost reg: seq<Deck>, ghost chans: seq<seq<Sample>>, ghost trace0: seq<Event>)
      requires n < |reg| && dv == reg[n].dv && dv.local == Local(reg[n].jack)
      requires Wired(reg[n].jack, buffers, nframes) && nframes <= MaxFrames
      requires CycleDone(reg, chans, Contents(buffers), rendered, nframes, toFloat, n)
      requires trace == trace0 + CycleEvents(reg[..n], chans, nframes, rate, toShort)
      modifies this`trace, buffers
      ensures trace == trace0 + CycleEvents(reg[..n + 1], chans, nframes, rate, toShort)
      ensures CycleDone(reg, chans, Contents(buffers), rendered, nframes, toFloat, n + 1)
    {
      CycleEventsSnoc(reg, chans, nframes, rate, toShort, n, trace0);
      InputsNow(reg, chans, buffers, rendered, nframes, toFloat, n);
      ghost var before := Contents(buffers);
      ProcessDeck(dv, nframes, buffers, rendered[n], toShort, toFloat, reg[n].jack);
      DeckRan(reg, chans, before, buffers, rendered, nframes, toFloat, n);
    }

    /** At the start of a cycle the registry has its shape and no buffer has been written. */
    lemma CycleStart(buffers: seq<array<Sample>>, nframes: nat, rendered: seq<seq<Short>>, toFloat: Short -> Sample)
      requires Valid() && CycleBuffers(buffers, |ports|, nframes)
      requires |rendered| == decks && forall i :: 0 <= i < decks ==> |rendered[i]| == Channels * nframes
      ensures CycleDone(Registry(), Contents(buffers), Contents(buffers), rendered, nframes, toFloat, 0)
      ensures forall i :: 0 <= i < decks ==> Wired(Registry()[i].jack, buffers, nframes)
    {
      var reg := Registry();
      forall i | 0 <= i < decks ensures Wired(reg[i].jack, buffers, nframes) {
        OwnedWiring(reg[i].jack, buffers, nframes);
      }
      forall i, j | 0 <= i < |reg| && 0 <= j < |reg| && reg[i].dv == reg[j].dv
        ensures reg[i].jack == reg[j].jack
      {
        assert device[i] == device[j];
      }
    }
  }
}
