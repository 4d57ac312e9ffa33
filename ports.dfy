/**
 * Port naming and the registration schedule of register_ports (jack.c):
 * each deck owns one input ("timecode") and one output ("playback") port
 * per channel, named after the deck, and asks the JACK server for them in
 * the order input-L, output-L, input-R, output-R.
 */
module Ports {
  import opened Layout

  /** The direction a port is registered with (JackPortIsInput, JackPortIsOutput). */
  datatype Direction = Input | Output

  /** A channel number. */
  type ChannelIndex = c: nat | c < Channels

  /** A port as register_ports asks the JACK server for it: the deck it belongs to, its direction and its channel. */
  datatype PortSpec = PortSpec(deck: string, direction: Direction, channel: ChannelIndex)

  /** The per-channel labels of register_ports. */
  const ChannelLabel: seq<char> := ['L', 'R']

  /** The size of register_ports' `port_name` buffer, terminating NUL included. */
  const PortNameSize: nat := 32

  /** The longest deck name whose port names fit `port_name`. */
  const MaxDeckName: nat := 20

  /** The part of a port name between the deck name and the channel label. */
  function Infix(d: Direction): (r: string)
    ensures |r| == 10
  {
    match d
    case Input => "_timecode_"
    case Output => "_playback_"
  }

  /** The name that `sprintf(port_name, "%s_timecode_%c", ...)` (or `_playback_`) builds for `p`. */
  function PortName(p: PortSpec): (r: string)
    ensures |r| == |p.deck| + |Infix(p.direction)| + 1
  {
    p.deck + Infix(p.direction) + [ChannelLabel[p.channel]]
  }

  /** A port name starts with the deck name, continues with the infix of its direction and ends in the channel label. */
  lemma PortNameParts(p: PortSpec)
    ensures var r := PortName(p);
      && r[..|p.deck|] == p.deck
      && r[|p.deck|..|p.deck| + |Infix(p.direction)|] == Infix(p.direction)
      && r[|r| - 1] == ChannelLabel[p.channel]
  {
  }

  /** A port name and its terminating NUL fit `port_name` exactly when the deck name has at most 20 characters. */
  lemma PortNameFits(p: PortSpec)
    ensures |PortName(p)| + 1 <= PortNameSize <==> |p.deck| <= MaxDeckName
  {
  }

  /** Two ports of one deck with the same name are the same port. */
  lemma PortNamesDistinct(p: PortSpec, q: PortSpec)
    requires p.deck == q.deck && PortName(p) == PortName(q)
    ensures p == q
  {
    var n, deck := PortName(p), p.deck;
    PortNameParts(p);
    PortNameParts(q);
    assert n[|deck|..|deck| + 10] == Infix(p.direction) == Infix(q.direction);
    assert n[|deck| + 1] == Infix(p.direction)[1] == Infix(q.direction)[1];
    assert n[|n| - 1] == ChannelLabel[p.channel] == ChannelLabel[q.channel];
  }

  /**
   * The ports register_ports asks for, in the order it asks: for each
   * channel, its input port, then its output port.
   */
  function Schedule(deck: string): (r: seq<PortSpec>)
    ensures |r| == 2 * Channels
  {
    seq(2 * Channels, i requires 0 <= i < 2 * Channels =>
      PortSpec(deck, if i % 2 == 0 then Input else Output, i / 2))
  }

  /** Registration order: input-L, output-L, input-R, output-R, with these names. */
  lemma ScheduleOrder(deck: string)
    ensures var s := Schedule(deck);
      && s == [PortSpec(deck, Input, 0), PortSpec(deck, Output, 0), PortSpec(deck, Input, 1), PortSpec(deck, Output, 1)]
      && PortName(s[0]) == deck + "_timecode_L" && PortName(s[1]) == deck + "_playback_L"
      && PortName(s[2]) == deck + "_timecode_R" && PortName(s[3]) == deck + "_playback_R"
  {
  }

  /** Entry `2 * c` of the schedule is channel `c`'s input port, entry `2 * c + 1` its output port. */
  lemma ScheduleAt(deck: string, c: ChannelIndex)
    ensures Schedule(deck)[2 * c] == PortSpec(deck, Input, c)
    ensures Schedule(deck)[2 * c + 1] == PortSpec(deck, Output, c)
  {
  }

  /** The ports of a deck's schedule are pairwise different, and so are their names. */
  lemma ScheduleDistinct(deck: string, i: nat, j: nat)
    requires i < j < 2 * Channels
    ensures Schedule(deck)[i] != Schedule(deck)[j]
    ensures PortName(Schedule(deck)[i]) != PortName(Schedule(deck)[j])
  {
    ScheduleOrder(deck);
    var s := Schedule(deck);
    if PortName(s[i]) == PortName(s[j]) {
      PortNamesDistinct(s[i], s[j]);
    }
  }

  /**
   * How many ports of `s`, from the first on, the server grants before the
   * first it refuses (all of them when it refuses none).
   */
  function Granted(s: seq<PortSpec>, accepts: PortSpec -> bool): (k: nat)
    ensures k <= |s|
    ensures forall i :: 0 <= i < k ==> accepts(s[i])
    ensures k < |s| ==> !accepts(s[k])
  {
    if s == [] || !accepts(s[0]) then 0 else 1 + Granted(s[1..], accepts)
  }

  /** Granted is the only count with the property stated by its contract. */
  lemma GrantedIs(s: seq<PortSpec>, accepts: PortSpec -> bool, k: nat)
    requires k <= |s|
    requires forall i :: 0 <= i < k ==> accepts(s[i])
    requires k < |s| ==> !accepts(s[k])
    ensures Granted(s, accepts) == k
  {
  }

  /** The ports register_ports asks for: all that were granted and the first one refused, if any. */
  function Attempted(s: seq<PortSpec>, accepts: PortSpec -> bool): (r: seq<PortSpec>)
    ensures |r| <= |s| && r == s[..|r|]
    ensures |r| == |s| || (|r| == Granted(s, accepts) + 1 && !accepts(r[|r| - 1]))
    ensures forall i :: 0 <= i < |r| - 1 ==> accepts(r[i])
  {
    var k := Granted(s, accepts);
    if k == |s| then s else s[..k + 1]
  }

  /** When port `k` is the first refused, the attempts end with it. */
  lemma RefusedAt(s: seq<PortSpec>, accepts: PortSpec -> bool, k: nat)
    requires k < |s| && !accepts(s[k])
    requires forall i :: 0 <= i < k ==> accepts(s[i])
    ensures Granted(s, accepts) == k && Attempted(s, accepts) == s[..k + 1]
  {
    GrantedIs(s, accepts, k);
  }

  /** When every port is granted, every port is attempted. */
  lemma AllGranted(s: seq<PortSpec>, accepts: PortSpec -> bool)
    requires forall i :: 0 <= i < |s| ==> accepts(s[i])
    ensures Granted(s, accepts) == |s| && Attempted(s, accepts) == s
  {
    GrantedIs(s, accepts, |s|);
  }
}
