/**
 * What one process_callback cycle does to the port buffers, stated on
 * their contents: every deck of the registry, in order, overwrites the
 * first `nframes` samples of its output buffers with what its player
 * rendered, and leaves every other buffer, its own inputs included, alone.
 */
module Cycle {
  import opened Layout
  import opened Ports
  import opened Events

  /** `id` is the handle of one of `jack`'s output ports. */
  predicate IsOutputOf(jack: JackPorts, id: PortId)
    requires Complete(jack)
  {
    exists c :: 0 <= c < Channels && jack.outputPort[c] == Port(id)
  }

  /** Every deck of `reg` has all its ports. */
  predicate AllComplete(reg: seq<Deck>)
  {
    forall i :: 0 <= i < |reg| ==> Complete(reg[i].jack)
  }

  /** `id` is the handle of an output port of some deck of `reg`. */
  predicate IsDeckOutput(reg: seq<Deck>, id: PortId)
    requires forall i :: 0 <= i < |reg| ==> Complete(reg[i].jack)
  {
    exists i :: 0 <= i < |reg| && IsOutputOf(reg[i].jack, id)
  }

  /** Deck `i` of `reg` is the last registry entry for its device. */
  predicate LastEntry(reg: seq<Deck>, i: nat)
  {
    forall j :: i < j < |reg| ==> reg[j].dv != reg[i].dv
  }

  /**
   * The shape the deck registry keeps: every deck has all its ports, each
   * its own; entries for one device agree on its ports, and entries for two
   * devices share none.
   */
  predicate RegistryShape(reg: seq<Deck>)
  {
    (forall i :: 0 <= i < |reg| ==> Complete(reg[i].jack) && Distinct(reg[i].jack)) &&
    (forall i, j :: 0 <= i < |reg| && 0 <= j < |reg| && reg[i].dv == reg[j].dv ==> reg[i].jack == reg[j].jack) &&
    (forall i, j :: 0 <= i < |reg| && 0 <= j < |reg| && reg[i].dv != reg[j].dv ==>
      PortIds(reg[i].jack) !! PortIds(reg[j].jack))
  }

  /** Every port of `jack` has a buffer of at least `nframes` samples in `chans`. */
  predicate Plugged(jack: JackPorts, chans: seq<seq<Sample>>, nframes: nat)
  {
    Fed(jack, chans, nframes) &&
    forall c :: 0 <= c < Channels ==> jack.outputPort[c].id < |chans| && nframes <= |chans[jack.outputPort[c].id]|
  }

  /**
   * The buffers `cur` after the first `n` decks of `reg` have run on the
   * buffers `chans` of the cycle: only output buffers of those decks have
   * changed, and only in their first `nframes` samples; an output buffer of
   * a deck that is the last entry for its device among them holds what that
   * deck's player rendered.
   */
  predicate CycleDone(reg: seq<Deck>, chans: seq<seq<Sample>>, cur: seq<seq<Sample>>, rendered: seq<seq<Short>>,
                      nframes: nat, toFloat: Short -> Sample, n: nat)
  {
    && n <= |reg| && |rendered| == |reg| && |cur| == |chans| && RegistryShape(reg)
    && (forall i :: 0 <= i < |reg| ==> Plugged(reg[i].jack, chans, nframes) && |rendered[i]| == Channels * nframes)
    && (forall id :: 0 <= id < |chans| ==>
         nframes <= |chans[id]| && |cur[id]| == |chans[id]| && cur[id][nframes..] == chans[id][nframes..])
    && (forall id :: 0 <= id < |chans| && !IsDeckOutput(reg[..n], id) ==> cur[id] == chans[id])
    && (forall i, c :: 0 <= i < n && 0 <= c < Channels && LastEntry(reg[..n], i) ==>
         cur[reg[i].jack.outputPort[c].id][..nframes] == Channel(rendered[i], nframes, c, toFloat))
  }

  /** No deck's input port is any deck's output port. */
  lemma InputsAreNotOutputs(reg: seq<Deck>, i: nat, j: nat, c: nat)
    requires RegistryShape(reg) && i < |reg| && j < |reg| && c < Channels
    ensures !IsOutputOf(reg[j].jack, reg[i].jack.inputPort[c].id)
  {
    var id := reg[i].jack.inputPort[c].id;
    forall d | 0 <= d < Channels ensures reg[j].jack.outputPort[d] != Port(id) {
      if reg[i].dv == reg[j].dv {
        assert reg[i].jack == reg[j].jack;
      } else {
        assert id in PortIds(reg[i].jack);
        assert reg[j].jack.outputPort[d].id in PortIds(reg[j].jack);
      }
    }
  }

  /** Before deck `n` runs, its input buffers still hold what the cycle started with. */
  lemma InputsUntouched(reg: seq<Deck>, chans: seq<seq<Sample>>, cur: seq<seq<Sample>>, rendered: seq<seq<Short>>,
                        nframes: nat, toFloat: Short -> Sample, n: nat)
    requires CycleDone(reg, chans, cur, rendered, nframes, toFloat, n) && n < |reg|
    ensures forall c :: 0 <= c < Channels ==> cur[reg[n].jack.inputPort[c].id] == chans[reg[n].jack.inputPort[c].id]
  {
    forall c | 0 <= c < Channels
      ensures cur[reg[n].jack.inputPort[c].id] == chans[reg[n].jack.inputPort[c].id]
    {
      var id := reg[n].jack.inputPort[c].id;
      forall i | 0 <= i < n ensures !IsOutputOf(reg[..n][i].jack, id) {
        InputsAreNotOutputs(reg, n, i, c);
      }
    }
  }

  /** Running deck `n`, which writes only its own output buffers, extends a partial cycle by one deck. */
  lemma DeckStep(reg: seq<Deck>, chans: seq<seq<Sample>>, before: seq<seq<Sample>>, after: seq<seq<Sample>>,
                 rendered: seq<seq<Short>>, nframes: nat, toFloat: Short -> Sample, n: nat)
    requires CycleDone(reg, chans, before, rendered, nframes, toFloat, n) && n < |reg|
    requires |after| == |chans|
    requires forall id :: 0 <= id < |chans| && !IsOutputOf(reg[n].jack, id) ==> after[id] == before[id]
    requires forall c :: 0 <= c < Channels ==>
      var o := reg[n].jack.outputPort[c].id;
      |after[o]| == |before[o]| &&
      after[o][..nframes] == Channel(rendered[n], nframes, c, toFloat) && after[o][nframes..] == before[o][nframes..]
    ensures CycleDone(reg, chans, after, rendered, nframes, toFloat, n + 1)
  {
    StepTails(reg[n].jack, chans, before, after, nframes);
    StepOthers(reg, chans, before, after, n);
    forall i | 0 <= i < n && reg[i].dv != reg[n].dv
      ensures forall c, d :: 0 <= c < Channels && 0 <= d < Channels ==> reg[i].jack.outputPort[c] != reg[n].jack.outputPort[d]
    {
      OutputsApart(reg, i, n);
    }
    StepOutputs(reg, before, after, rendered, nframes, toFloat, n);
  }

  /** Decks of two different devices have no output port in common. */
  lemma OutputsApart(reg: seq<Deck>, i: nat, j: nat)
    requires RegistryShape(reg) && i < |reg| && j < |reg| && reg[i].dv != reg[j].dv
    ensures forall c, d :: 0 <= c < Channels && 0 <= d < Channels ==> reg[i].jack.outputPort[c] != reg[j].jack.outputPort[d]
  {
    forall c, d | 0 <= c < Channels && 0 <= d < Channels
      ensures reg[i].jack.outputPort[c] != reg[j].jack.outputPort[d]
    {
      assert reg[i].jack.outputPort[c].id in PortIds(reg[i].jack);
      assert reg[j].jack.outputPort[d].id in PortIds(reg[j].jack);
    }
  }

  /** A deck's run changes buffers only in their first `nframes` samples. */
  lemma StepTails(jack: JackPorts, chans: seq<seq<Sample>>, before: seq<seq<Sample>>, after: seq<seq<Sample>>, nframes: nat)
    requires Complete(jack) && |before| == |chans| && |after| == |chans|
    requires forall id :: 0 <= id < |chans| ==>
      nframes <= |chans[id]| && |before[id]| == |chans[id]| && before[id][nframes..] == chans[id][nframes..]
    requires forall id :: 0 <= id < |chans| && !IsOutputOf(jack, id) ==> after[id] == before[id]
    requires forall c :: 0 <= c < Channels ==>
      var o := jack.outputPort[c].id;
      o < |chans| && |after[o]| == |before[o]| && after[o][nframes..] == before[o][nframes..]
    ensures forall id :: 0 <= id < |chans| ==>
      |after[id]| == |chans[id]| && after[id][nframes..] == chans[id][nframes..]
  {
    forall id | 0 <= id < |chans|
      ensures |after[id]| == |chans[id]| && after[id][nframes..] == chans[id][nframes..]
    {
      if IsOutputOf(jack, id) {
        var c :| 0 <= c < Channels && jack.outputPort[c] == Port(id);
      }
    }
  }

  /** A buffer that no deck up to `n` outputs to still holds what the cycle started with. */
  lemma StepOthers(reg: seq<Deck>, chans: seq<seq<Sample>>, before: seq<seq<Sample>>, after: seq<seq<Sample>>, n: nat)
    requires n < |reg| && forall i :: 0 <= i < |reg| ==> Complete(reg[i].jack)
    requires |before| == |chans| && |after| == |chans|
    requires forall id :: 0 <= id < |chans| && !IsDeckOutput(reg[..n], id) ==> before[id] == chans[id]
    requires forall id :: 0 <= id < |chans| && !IsOutputOf(reg[n].jack, id) ==> after[id] == before[id]
    ensures forall id :: 0 <= id < |chans| && !IsDeckOutput(reg[..n + 1], id) ==> after[id] == chans[id]
  {
    forall id | 0 <= id < |chans| && !IsDeckOutput(reg[..n + 1], id)
      ensures after[id] == chans[id]
    {
      assert !IsOutputOf(reg[..n + 1][n].jack, id);
      forall i | 0 <= i < n ensures !IsOutputOf(reg[..n][i].jack, id) {
        assert !IsOutputOf(reg[..n + 1][i].jack, id);
      }
    }
  }

  /**
   * After deck `n` has run, the output buffers of every deck up to `n` that
   * is the last entry for its device hold what that deck's player rendered.
   */
  lemma StepOutputs(reg: seq<Deck>, before: seq<seq<Sample>>, after: seq<seq<Sample>>, rendered: seq<seq<Short>>,
                    nframes: nat, toFloat: Short -> Sample, n: nat)
    requires n < |reg| && |rendered| == |reg| && |after| == |before| && AllComplete(reg)
    requires forall i, c, d :: 0 <= i < n && reg[i].dv != reg[n].dv && 0 <= c < Channels && 0 <= d < Channels ==>
      reg[i].jack.outputPort[c] != reg[n].jack.outputPort[d]
    requires forall i, c :: 0 <= i < |reg| && 0 <= c < Channels ==>
      reg[i].jack.outputPort[c].id < |before| && nframes <= |before[reg[i].jack.outputPort[c].id]| &&
      |rendered[i]| == Channels * nframes
    requires forall i, c :: 0 <= i < n && 0 <= c < Channels && LastEntry(reg[..n], i) ==>
      before[reg[i].jack.outputPort[c].id][..nframes] == Channel(rendered[i], nframes, c, toFloat)
    requires forall id :: 0 <= id < |before| && !IsOutputOf(reg[n].jack, id) ==> after[id] == before[id]
    requires forall c :: 0 <= c < Channels ==>
      var o := reg[n].jack.outputPort[c].id;
      nframes <= |after[o]| && after[o][..nframes] == Channel(rendered[n], nframes, c, toFloat)
    ensures forall i, c :: 0 <= i < n + 1 && 0 <= c < Channels && LastEntry(reg[..n + 1], i) ==>
      nframes <= |after[reg[i].jack.outputPort[c].id]| &&
      after[reg[i].jack.outputPort[c].id][..nframes] == Channel(rendered[i], nframes, c, toFloat)
  {
    var jack := reg[n].jack;
    forall i, c | 0 <= i < n + 1 && 0 <= c < Channels && LastEntry(reg[..n + 1], i)
      ensures nframes <= |after[reg[i].jack.outputPort[c].id]|
      ensures after[reg[i].jack.outputPort[c].id][..nframes] == Channel(rendered[i], nframes, c, toFloat)
    {
      if i < n {
        assert reg[..n + 1][n].dv != reg[..n + 1][i].dv;
        assert LastEntry(reg[..n], i) by {
          forall j | i < j < n ensures reg[..n][j].dv != reg[..n][i].dv {
            assert reg[..n + 1][j].dv != reg[..n + 1][i].dv;
          }
        }
        var id := reg[i].jack.outputPort[c].id;
        assert reg[i].jack.outputPort[c] == Port(id);
        assert !IsOutputOf(reg[n].jack, id);
      }
    }
  }

  /** The events of one more deck of a cycle follow those of the decks before it. */
  lemma CycleEventsSnoc(reg: seq<Deck>, chans: seq<seq<Sample>>, nframes: nat, rate: int, toShort: Sample -> Short, n: nat,
                        earlier: seq<Event>)
    requires n < |reg| && forall i :: 0 <= i < |reg| ==> Fed(reg[i].jack, chans, nframes)
    ensures earlier + CycleEvents(reg[..n + 1], chans, nframes, rate, toShort)
         == earlier + CycleEvents(reg[..n], chans, nframes, rate, toShort)
          + DeckEvents(reg[n], Interleaved(DeckInputs(reg[n].jack, chans, nframes), nframes, toShort), nframes, rate)
  {
    assert reg[..n + 1][..n] == reg[..n];
    var done := CycleEvents(reg[..n], chans, nframes, rate, toShort);
    var next := DeckEvents(reg[n], Interleaved(DeckInputs(reg[n].jack, chans, nframes), nframes, toShort), nframes, rate);
    assert earlier + (done + next) == earlier + done + next;
  }
}
