/** The countdown to the next mint, as computed every second by the second effect
    of `LiveMonitor` in src/App1.jsx: an elapsed-time regime for the first 90
    tokens and a block-count regime afterwards. The floating-point schedule
    `0.003183 * n^2.3` hours is an input here (`intervalMillis`, already an
    integer), as are the clock and the latest block number. */
module Countdown {
  import opened Common
  import opened Text

  const PhaseOneTotal := 90
  const BlocksPerPulse := 4560
  const MillisPerHour := 3600000
  const MillisPerMinute := 60000
  const MillisPerSecond := 1000

  /** The remote trigger document: the next token id, the time of the last mint
      in milliseconds, and the block of the last mint. */
  datatype TriggerState = TriggerState(nextNftId: int, lastMintMillis: int, lastMintBlock: int)

  /** What the countdown line shows. */
  datatype Display =
    | AwaitingState
    | MintingInProgress
    | TimeRemaining(hours: nat, minutes: nat, seconds: nat)
    | Syncing
    | BlocksRemaining(blocks: nat)

  /** A positive duration split into whole hours, minutes and seconds, each by
      `Math.floor` of a quotient as the source does (for positive operands `%` and
      `/` agree with JavaScript's). */
  function Decompose(ms: int): (d: Display)
    requires ms > 0
    ensures d.TimeRemaining?
    ensures d.minutes < 60 && d.seconds < 60
    ensures Duration(d.hours, d.minutes, d.seconds) <= ms < Duration(d.hours, d.minutes, d.seconds) + MillisPerSecond
  {
    var hours := ms / MillisPerHour;
    var minutes := (ms % MillisPerHour) / MillisPerMinute;
    var seconds := (ms % MillisPerMinute) / MillisPerSecond;
    DecomposeBounds(ms);
    TimeRemaining(hours, minutes, seconds)
  }

  /** The milliseconds in `h` hours, `m` minutes and `s` seconds. */
  function Duration(h: nat, m: nat, s: nat): int {
    h * MillisPerHour + m * MillisPerMinute + s * MillisPerSecond
  }

  /** The arithmetic behind `Decompose`: minutes of the hour remainder and seconds
      of the minute remainder add back up to the duration, to within a second. */
  lemma DecomposeBounds(ms: int)
    requires ms > 0
    ensures var h := ms / MillisPerHour;
            var m := (ms % MillisPerHour) / MillisPerMinute;
            var s := (ms % MillisPerMinute) / MillisPerSecond;
            && m < 60 && s < 60
            && h * MillisPerHour + m * MillisPerMinute + s * MillisPerSecond <= ms
            && ms < h * MillisPerHour + m * MillisPerMinute + s * MillisPerSecond + MillisPerSecond
  {
    var h := ms / MillisPerHour;
    var r1 := ms % MillisPerHour;
    assert ms == h * MillisPerHour + r1;
    var m := r1 / MillisPerMinute;
    var r2 := r1 % MillisPerMinute;
    assert r1 == m * MillisPerMinute + r2;
    assert m < 60;
    // the minute remainder of `ms` is the minute remainder of the hour remainder
    assert ms == (h * 60 + m) * MillisPerMinute + r2;
    assert ms % MillisPerMinute == r2 by {
      ModOfMultiplePlus(h * 60 + m, MillisPerMinute, r2);
    }
    var s := r2 / MillisPerSecond;
    assert r2 == s * MillisPerSecond + r2 % MillisPerSecond;
    assert s < 60;
  }

  /** `(q * d + r) % d == r` for a remainder `r` in range. */
  lemma ModOfMultiplePlus(q: int, d: int, r: int)
    requires d > 0 && 0 <= r < d
    ensures (q * d + r) % d == r
    ensures (q * d + r) / d == q
  {
    var x := q * d + r;
    var q' := x / d;
    var r' := x % d;
    assert x == q' * d + r';
    var k := q - q';
    assert k * d == r' - r by {
      assert q * d - q' * d == (q - q') * d;
    }
    if k >= 1 {
      PositiveMultipleAtLeast(k, d);
    } else if k <= -1 {
      PositiveMultipleAtLeast(-k, d);
    }
    assert k == 0;
  }

  /** A positive multiple of a positive number is at least that number. */
  lemma PositiveMultipleAtLeast(k: int, d: int)
    requires k >= 1 && d > 0
    ensures k * d >= d
  {
    assert k * d == (k - 1) * d + d;
  }

  /** Splitting a duration that was built from hours, minutes under 60, seconds
      under 60 and a sub-second rest gives back those hours, minutes and seconds. */
  lemma DecomposeRoundTrip(h: nat, m: nat, s: nat, rest: nat)
    requires m < 60 && s < 60 && rest < MillisPerSecond
    requires Duration(h, m, s) + rest > 0
    ensures Decompose(Duration(h, m, s) + rest) == TimeRemaining(h, m, s)
  {
    var ms := Duration(h, m, s) + rest;
    var d := Decompose(ms);
    var inHour := m * MillisPerMinute + s * MillisPerSecond + rest;
    assert 0 <= inHour < MillisPerHour;
    assert ms == h * MillisPerHour + inHour;
    ModOfMultiplePlus(h, MillisPerHour, inHour);
    var inMinute := s * MillisPerSecond + rest;
    ModOfMultiplePlus(m, MillisPerMinute, inMinute);
    assert ms == (h * 60 + m) * MillisPerMinute + inMinute;
    ModOfMultiplePlus(h * 60 + m, MillisPerMinute, inMinute);
    ModOfMultiplePlus(s, MillisPerSecond, rest);
  }

  /** The countdown for the current inputs:
      - no trigger document yet: awaiting state;
      - next id at most 90: the time regime, minting once the target time is
        reached, otherwise the time left;
      - any larger id: the block regime, syncing while no block is known, minting
        once 4560 blocks have passed since the last mint, otherwise the blocks left. */
  function Estimate(trigger: Option<TriggerState>, latestBlock: Option<int>,
                    intervalMillis: int, nowMillis: int): (d: Display)
    ensures trigger.None? <==> d == AwaitingState
    ensures d.TimeRemaining? ==> trigger.Some? && trigger.value.nextNftId <= PhaseOneTotal
    ensures d.Syncing? || d.BlocksRemaining? ==> trigger.Some? && trigger.value.nextNftId > PhaseOneTotal
    ensures d.Syncing? <==> trigger.Some? && trigger.value.nextNftId > PhaseOneTotal && latestBlock.None?
    ensures d.TimeRemaining? ==>
              var left := trigger.value.lastMintMillis + intervalMillis - nowMillis;
              Duration(d.hours, d.minutes, d.seconds) <= left < Duration(d.hours, d.minutes, d.seconds) + MillisPerSecond
    ensures d.BlocksRemaining? ==>
              && latestBlock.Some?
              && d.blocks > 0
              && d.blocks + (latestBlock.value - trigger.value.lastMintBlock) == BlocksPerPulse
    ensures trigger.Some? && trigger.value.nextNftId <= PhaseOneTotal ==>
              var left := trigger.value.lastMintMillis + intervalMillis - nowMillis;
              && (d == MintingInProgress <==> left <= 0)
              && (left > 0 ==> d == Decompose(left))
    ensures trigger.Some? && trigger.value.nextNftId > PhaseOneTotal && latestBlock.Some? ==>
              var remaining := BlocksPerPulse - (latestBlock.value - trigger.value.lastMintBlock);
              && (d == MintingInProgress <==> remaining <= 0)
              && (remaining > 0 ==> d == BlocksRemaining(remaining))
  {
    if trigger.None? then AwaitingState
    else
      var t := trigger.value;
      if t.nextNftId <= PhaseOneTotal then
        var millisRemaining := t.lastMintMillis + intervalMillis - nowMillis;
        if millisRemaining <= 0 then MintingInProgress else Decompose(millisRemaining)
      else if latestBlock.None? then Syncing
      else
        var blocksProcessed := latestBlock.value - t.lastMintBlock;
        var blocksRemaining := BlocksPerPulse - blocksProcessed;
        if blocksRemaining <= 0 then MintingInProgress else BlocksRemaining(blocksRemaining)
  }

  /** In the block regime the countdown only moves forward: a later block never
      shows more blocks left, and once minting is shown it stays shown. */
  lemma BlockCountdownMonotone(t: TriggerState, b1: int, b2: int, interval: int, now: int)
    requires t.nextNftId > PhaseOneTotal && b1 <= b2
    ensures var d1 := Estimate(Some(t), Some(b1), interval, now);
            var d2 := Estimate(Some(t), Some(b2), interval, now);
            && (d1 == MintingInProgress ==> d2 == MintingInProgress)
            && (d1.BlocksRemaining? && d2.BlocksRemaining? ==> d2.blocks <= d1.blocks)
  {
  }

  /** In the time regime the countdown only moves forward as the clock advances. */
  lemma TimeCountdownMonotone(t: TriggerState, block: Option<int>, interval: int, now1: int, now2: int)
    requires t.nextNftId <= PhaseOneTotal && now1 <= now2
    ensures var d1 := Estimate(Some(t), block, interval, now1);
            var d2 := Estimate(Some(t), block, interval, now2);
            && (d1 == MintingInProgress ==> d2 == MintingInProgress)
            && (d1.TimeRemaining? && d2.TimeRemaining? ==>
                  Duration(d2.hours, d2.minutes, d2.seconds) <= Duration(d1.hours, d1.minutes, d1.seconds))
  {
    var d1 := Estimate(Some(t), block, interval, now1);
    var d2 := Estimate(Some(t), block, interval, now2);
    if d1.TimeRemaining? && d2.TimeRemaining? {
      var left1 := t.lastMintMillis + interval - now1;
      var left2 := t.lastMintMillis + interval - now2;
      var D1 := Duration(d1.hours, d1.minutes, d1.seconds);
      var D2 := Duration(d2.hours, d2.minutes, d2.seconds);
      // both durations are whole seconds, so D2 <= left2 <= left1 < D1 + 1000 forces D2 <= D1
      assert D1 % MillisPerSecond == 0 && D2 % MillisPerSecond == 0 by {
        ModOfMultiplePlus(d1.hours * 3600 + d1.minutes * 60 + d1.seconds, MillisPerSecond, 0);
        ModOfMultiplePlus(d2.hours * 3600 + d2.minutes * 60 + d2.seconds, MillisPerSecond, 0);
      }
      WholeSecondsOrder(D1 / MillisPerSecond, D2 / MillisPerSecond);
    }
  }

  /** Whole seconds below `a + 1` seconds are at most `a` seconds. */
  lemma WholeSecondsOrder(a: int, b: int)
    ensures b * MillisPerSecond < a * MillisPerSecond + MillisPerSecond ==> b * MillisPerSecond <= a * MillisPerSecond
  {
  }

  const AwaitingLine := "Awaiting system state..."
  const MintingLine := "MINTING IN PROGRESS..."
  const SyncingLine := "Syncing with blockchain..."
  const TimePrefix := "Time remaining: "
  const BlocksSuffix := " blocks remaining for next Pulse..."

  /** The countdown line exactly as displayed: the three fixed lines, the time left
      as `Time remaining: <h>h <m>m <s>s`, and the blocks left as
      `<n> blocks remaining for next Pulse...`. */
  function Render(d: Display): (r: string)
    ensures d == AwaitingState ==> r == AwaitingLine
    ensures d == MintingInProgress ==> r == MintingLine
    ensures d == Syncing ==> r == SyncingLine
    ensures d.TimeRemaining? ==> StartsWith(r, TimePrefix) && EndsWith(r, "s")
    ensures d.BlocksRemaining? ==> StartsWith(r, NatToDecimal(d.blocks)) && EndsWith(r, BlocksSuffix)
  {
    match d
    case AwaitingState => AwaitingLine
    case MintingInProgress => MintingLine
    case TimeRemaining(h, m, s) =>
      var r := TimePrefix + NatToDecimal(h) + "h " + NatToDecimal(m) + "m " + NatToDecimal(s) + "s";
      assert r[..|TimePrefix|] == TimePrefix;
      assert r[|r| - 1..] == "s";
      r
    case Syncing => SyncingLine
    case BlocksRemaining(n) =>
      var r := NatToDecimal(n) + BlocksSuffix;
      assert r[..|NatToDecimal(n)|] == NatToDecimal(n);
      assert r[|r| - |BlocksSuffix|..] == BlocksSuffix;
      r
  }

  /** Different displays show different lines: the first character tells the kind
      of line apart, and the numbers read back from the line. */
  lemma RenderInjective(d1: Display, d2: Display)
    requires Render(d1) == Render(d2)
    ensures d1 == d2
  {
    LeadCharOfLine(d1);
    LeadCharOfLine(d2);
    match d1
    case TimeRemaining(h1, m1, s1) =>
      var TimeRemaining(h2, m2, s2) := d2;
      TimeLineReadsBack(h1, m1, s1, h2, m2, s2);
    case BlocksRemaining(n1) =>
      var BlocksRemaining(n2) := d2;
      var a1, a2 := NatToDecimal(n1), NatToDecimal(n2);
      var rest := BlocksSuffix[1..];
      assert BlocksSuffix == [' '] + rest;
      assert a1 + [' '] + rest == Render(d1);
      assert a2 + [' '] + rest == Render(d2);
      NoSpaceInDigits(a1);
      NoSpaceInDigits(a2);
      SplitAtFirst(a1, rest, a2, rest, ' ');
      DecimalInjective(n1, n2);
    case _ =>
  }

  /** The first character of a line names its kind: `A`, `M`, `S`, `T` for the
      awaiting, minting, syncing and time lines, a digit for the blocks line. */
  lemma LeadCharOfLine(d: Display)
    ensures |Render(d)| > 0
    ensures d == AwaitingState ==> Render(d)[0] == 'A'
    ensures d == MintingInProgress ==> Render(d)[0] == 'M'
    ensures d == Syncing ==> Render(d)[0] == 'S'
    ensures d.TimeRemaining? ==> Render(d)[0] == 'T'
    ensures d.BlocksRemaining? ==> IsDigit(Render(d)[0])
  {
    var r := Render(d);
    match d
    case AwaitingState => assert AwaitingLine[0] == 'A';
    case MintingInProgress => assert MintingLine[0] == 'M';
    case Syncing => assert SyncingLine[0] == 'S';
    case TimeRemaining(_, _, _) =>
      assert r[..|TimePrefix|] == TimePrefix;
      assert TimePrefix[0] == 'T';
    case BlocksRemaining(n) =>
      assert r[..|NatToDecimal(n)|] == NatToDecimal(n);
      assert r[0] == NatToDecimal(n)[0];
  }

  /** A decimal rendering holds no space and no unit letter. */
  lemma NoSpaceInDigits(s: string)
    requires forall k :: 0 <= k < |s| ==> IsDigit(s[k])
    ensures ' ' !in s && 'h' !in s && 'm' !in s && 's' !in s
  {
  }

  /** Two time lines that are equal carry the same hours, minutes and seconds. */
  lemma TimeLineReadsBack(h1: nat, m1: nat, s1: nat, h2: nat, m2: nat, s2: nat)
    requires Render(TimeRemaining(h1, m1, s1)) == Render(TimeRemaining(h2, m2, s2))
    ensures h1 == h2 && m1 == m2 && s1 == s2
  {
    var H1, M1, S1 := NatToDecimal(h1), NatToDecimal(m1), NatToDecimal(s1);
    var H2, M2, S2 := NatToDecimal(h2), NatToDecimal(m2), NatToDecimal(s2);
    NoSpaceInDigits(H1); NoSpaceInDigits(M1); NoSpaceInDigits(S1);
    NoSpaceInDigits(H2); NoSpaceInDigits(M2); NoSpaceInDigits(S2);
    TimeTextReadsBack(H1, M1, S1, H2, M2, S2);
    DecimalInjective(h1, h2);
    DecimalInjective(m1, m2);
    DecimalInjective(s1, s2);
  }

  /** The text of a time line determines its three numerals, as none of them holds
      a unit letter. */
  lemma TimeTextReadsBack(H1: string, M1: string, S1: string, H2: string, M2: string, S2: string)
    requires 'h' !in H1 && 'h' !in H2 && 'm' !in M1 && 'm' !in M2 && 's' !in S1 && 's' !in S2
    requires TimePrefix + H1 + "h " + M1 + "m " + S1 + "s" == TimePrefix + H2 + "h " + M2 + "m " + S2 + "s"
    ensures H1 == H2 && M1 == M2 && S1 == S2
  {
    var t1 := H1 + ['h'] + ([' '] + (M1 + ['m'] + ([' '] + (S1 + ['s'] + []))));
    var t2 := H2 + ['h'] + ([' '] + (M2 + ['m'] + ([' '] + (S2 + ['s'] + []))));
    assert TimePrefix + H1 + "h " + M1 + "m " + S1 + "s" == TimePrefix + t1;
    assert TimePrefix + H2 + "h " + M2 + "m " + S2 + "s" == TimePrefix + t2;
    assert t1 == (TimePrefix + t1)[|TimePrefix|..];
    assert t2 == (TimePrefix + t2)[|TimePrefix|..];
    SplitAtFirst(H1, [' '] + (M1 + ['m'] + ([' '] + (S1 + ['s'] + []))),
                 H2, [' '] + (M2 + ['m'] + ([' '] + (S2 + ['s'] + []))), 'h');
    var u1 := M1 + ['m'] + ([' '] + (S1 + ['s'] + []));
    var u2 := M2 + ['m'] + ([' '] + (S2 + ['s'] + []));
    assert u1 == ([' '] + u1)[1..];
    assert u2 == ([' '] + u2)[1..];
    SplitAtFirst(M1, [' '] + (S1 + ['s'] + []), M2, [' '] + (S2 + ['s'] + []), 'm');
    var v1 := S1 + ['s'] + [];
    var v2 := S2 + ['s'] + [];
    assert v1 == ([' '] + v1)[1..];
    assert v2 == ([' '] + v2)[1..];
    SplitAtFirst(S1, [], S2, [], 's');
  }

  /** The prompt colour state: `minting` when the rendered line mentions MINTING. */
  datatype MonitorStatus = Minting | Idle

  function StatusOf(d: Display): MonitorStatus {
    if Contains(Render(d), "MINTING") then Minting else Idle
  }

  /** The textual test `countdown.includes("MINTING")` recognises exactly the
      minting state: no other line, whatever numbers it carries, contains it. */
  lemma StatusIsMintingExactly(d: Display)
    ensures StatusOf(d) == Minting <==> d == MintingInProgress
  {
    var text := Render(d);
    if d == MintingInProgress {
      assert OccursAt(text, "MINTING", 0);
    } else {
      OnlyMintingLineHasM(d);
      AbsentLeadCharMeansAbsent(text, "MINTING");
    }
  }

  /** Every line but the minting one is free of the letter `M`. */
  lemma OnlyMintingLineHasM(d: Display)
    requires d != MintingInProgress
    ensures 'M' !in Render(d)
  {
    match d
    case AwaitingState =>
      FixedLinesHaveNoM();
    case Syncing =>
      FixedLinesHaveNoM();
    case TimeRemaining(h, m, s) =>
      TimeLineHasNoM(h, m, s);
    case BlocksRemaining(n) =>
      BlocksLineHasNoM(n);
  }

  /** The waiting and syncing lines carry no `M`. */
  lemma FixedLinesHaveNoM()
    ensures 'M' !in AwaitingLine && 'M' !in SyncingLine
  {
  }

  /** The blocks line carries no `M`: its suffix is lower-case apart from `P`. */
  lemma BlocksLineHasNoM(n: nat)
    ensures 'M' !in Render(BlocksRemaining(n))
  {
    DigitsHaveNoM(NatToDecimal(n));
    assert Render(BlocksRemaining(n)) == NatToDecimal(n) + BlocksSuffix;
  }

  /** The time line carries no `M`: its prefix and units are lower-case. */
  lemma TimeLineHasNoM(h: nat, m: nat, s: nat)
    ensures 'M' !in Render(TimeRemaining(h, m, s))
  {
    DigitsHaveNoM(NatToDecimal(h));
    DigitsHaveNoM(NatToDecimal(m));
    DigitsHaveNoM(NatToDecimal(s));
    assert Render(TimeRemaining(h, m, s))
        == TimePrefix + NatToDecimal(h) + "h " + NatToDecimal(m) + "m " + NatToDecimal(s) + "s";
  }

  /** A decimal rendering has no letter `M`. */
  lemma DigitsHaveNoM(s: string)
    requires forall k :: 0 <= k < |s| ==> IsDigit(s[k])
    ensures 'M' !in s
  {
  }
}
