/**
 `compare_to_baseline`: the greedy one-to-one matching of current spectral peaks to baseline
 peaks. Frequencies are real numbers; an absent baseline index is `None`.
 */
module Matching {
  import opened Reals
  import opened Wrappers

  datatype Peak = Peak(frequencyHz: real, resolutionHz: real)

  datatype Match = Match(baselineHz: real, currentHz: real, shiftHz: real, shiftPercent: Option<real>,
                         resolutionHz: real, exceedsResolution: bool)

  /** 5% of the frequency but never finer than twice the resolution, unless a tolerance is given. */
  function Window(p: Peak, tolerance: Option<real>): real {
    match tolerance
    case Some(t) => t
    case None => Max(p.frequencyHz * 0.05, p.resolutionHz * 2.0)
  }

  function Delta(b: Peak, p: Peak): real {
    Abs(b.frequencyHz - p.frequencyHz)
  }

  function MatchOf(p: Peak, b: Peak): Match {
    var shift := p.frequencyHz - b.frequencyHz;
    Match(b.frequencyHz, p.frequencyHz, shift,
          if b.frequencyHz == 0.0 then None else Some(shift / b.frequencyHz * 100.0),
          p.resolutionHz, Abs(shift) > Max(p.resolutionHz, 0.000000000001))
  }

  // ─── Specification: which baseline index each current peak takes ───────────────────

  /** `pairing[i]` is the baseline index taken by current peak `i`, if any. */
  type Pairing = seq<Option<nat>>

  function Taken(pairing: Pairing, count: nat): set<nat>
    requires count <= |pairing|
  {
    set j | 0 <= j < count && pairing[j].Some? :: pairing[j].value
  }

  predicate InRange(pairing: Pairing, baseline: seq<Peak>) {
    forall i :: 0 <= i < |pairing| && pairing[i].Some? ==> pairing[i].value < |baseline|
  }

  ghost predicate Distinct(pairing: Pairing) {
    forall i :: 0 <= i < |pairing| && pairing[i].Some? ==> pairing[i].value !in Taken(pairing, i)
  }

  predicate Candidate(p: Peak, baseline: seq<Peak>, window: real, taken: set<nat>, k: nat) {
    k < |baseline| && k !in taken && Delta(baseline[k], p) <= window
  }

  /** The choice is the nearest candidate, the first among equals; none only if there is no candidate. */
  ghost predicate Nearest(p: Peak, baseline: seq<Peak>, window: real, taken: set<nat>, choice: Option<nat>) {
    match choice
    case None =>
      forall k: nat :: !Candidate(p, baseline, window, taken, k)
    case Some(best) =>
      && Candidate(p, baseline, window, taken, best)
      && forall k: nat :: Candidate(p, baseline, window, taken, k) ==>
           if k < best then Delta(baseline[best], p) < Delta(baseline[k], p)
           else Delta(baseline[best], p) <= Delta(baseline[k], p)
  }

  /** Peak `i` chose from what earlier ones left. */
  ghost predicate Chose(current: seq<Peak>, baseline: seq<Peak>, tolerance: Option<real>, pairing: Pairing, i: nat)
    requires i < |pairing| <= |current|
  {
    Nearest(current[i], baseline, Window(current[i], tolerance), Taken(pairing, i), pairing[i])
  }

  ghost predicate Greedy(current: seq<Peak>, baseline: seq<Peak>, tolerance: Option<real>, pairing: Pairing) {
    && |pairing| <= |current|
    && forall i :: 0 <= i < |pairing| ==> Chose(current, baseline, tolerance, pairing, i)
  }

  lemma GreedyShape(current: seq<Peak>, baseline: seq<Peak>, tolerance: Option<real>, pairing: Pairing)
    requires Greedy(current, baseline, tolerance, pairing)
    ensures InRange(pairing, baseline) && Distinct(pairing)
  {
    forall i | 0 <= i < |pairing| && pairing[i].Some?
      ensures pairing[i].value < |baseline| && pairing[i].value !in Taken(pairing, i)
    {
      assert Chose(current, baseline, tolerance, pairing, i);
    }
  }

  // What each list of the result holds, given the pairing.

  function Matches(current: seq<Peak>, baseline: seq<Peak>, pairing: Pairing): seq<Match>
    requires |pairing| <= |current| && InRange(pairing, baseline)
  {
    if pairing == [] then []
    else
      var i := |pairing| - 1;
      Matches(current, baseline, pairing[..i])
      + if pairing[i].Some? then [MatchOf(current[i], baseline[pairing[i].value])] else []
  }

  function UnmatchedCurrent(current: seq<Peak>, pairing: Pairing): seq<real>
    requires |pairing| <= |current|
  {
    if pairing == [] then []
    else
      var i := |pairing| - 1;
      UnmatchedCurrent(current, pairing[..i]) + if pairing[i].None? then [current[i].frequencyHz] else []
  }

  function UnmatchedBaseline(baseline: seq<Peak>, taken: set<nat>): seq<real> {
    if baseline == [] then []
    else
      var k := |baseline| - 1;
      UnmatchedBaseline(baseline[..k], taken) + if k in taken then [] else [baseline[k].frequencyHz]
  }

  /** One more baseline peak looked at: it replaces the choice only if strictly nearer. */
  lemma NearestStep(p: Peak, baseline: seq<Peak>, window: real, taken: set<nat>, before: Option<nat>, k: nat)
    requires k < |baseline| && Nearest(p, baseline[..k], window, taken, before)
    ensures var better := Candidate(p, baseline, window, taken, k)
                          && (before.None? || Delta(baseline[k], p) < Delta(baseline[before.value], p));
            Nearest(p, baseline[..k + 1], window, taken, if better then Some(k) else before)
  {
    var shorter, longer := baseline[..k], baseline[..k + 1];
    assert forall j: nat | j < k :: shorter[j] == longer[j];
    assert forall j: nat ::
             Candidate(p, longer, window, taken, j) ==> j == k || Candidate(p, shorter, window, taken, j);
    assert forall j: nat :: Candidate(p, shorter, window, taken, j) ==> Candidate(p, longer, window, taken, j);
  }

  lemma TakenSame(a: Pairing, b: Pairing, count: nat)
    requires count <= |a| && count <= |b|
    requires forall j :: 0 <= j < count ==> a[j] == b[j]
    ensures Taken(a, count) == Taken(b, count)
  {}

  lemma TakenStep(pairing: Pairing, choice: Option<nat>)
    ensures Taken(pairing + [choice], |pairing| + 1)
            == Taken(pairing, |pairing|) + if choice.Some? then {choice.value} else {}
  {
    var longer := pairing + [choice];
    TakenSame(pairing, longer, |pairing|);
    assert longer[|pairing|] == choice;
    if choice.Some? {
      assert choice.value in Taken(longer, |pairing| + 1);
    }
    forall k | k in Taken(longer, |pairing|) ensures k in Taken(longer, |pairing| + 1) {
      var j :| 0 <= j < |pairing| && longer[j].Some? && longer[j].value == k;
    }
  }

  lemma GreedyStep(current: seq<Peak>, baseline: seq<Peak>, tolerance: Option<real>, pairing: Pairing,
                   choice: Option<nat>)
    requires |pairing| < |current| && Greedy(current, baseline, tolerance, pairing)
    requires Nearest(current[|pairing|], baseline, Window(current[|pairing|], tolerance), Taken(pairing, |pairing|),
                     choice)
    ensures Greedy(current, baseline, tolerance, pairing + [choice])
  {
    var longer := pairing + [choice];
    forall i | 0 <= i < |longer| ensures Chose(current, baseline, tolerance, longer, i) {
      TakenSame(pairing, longer, i);
      assert i < |pairing| ==> Chose(current, baseline, tolerance, pairing, i);
    }
  }

  // ─── The method ────────────────────────────────────────────────────────────────────

  /** The three lists report this pairing, in the order of the peaks. */
  ghost predicate Reports(current: seq<Peak>, baseline: seq<Peak>, pairing: Pairing,
                          matched: seq<Match>, unmatchedCurrent: seq<real>, unmatchedBaseline: seq<real>)
  {
    && |pairing| == |current| && InRange(pairing, baseline)
    && matched == Matches(current, baseline, pairing)
    && unmatchedCurrent == UnmatchedCurrent(current, pairing)
    && unmatchedBaseline == UnmatchedBaseline(baseline, Taken(pairing, |pairing|))
  }

  /** The three lists report a greedy pairing. */
  ghost predicate Compared(current: seq<Peak>, baseline: seq<Peak>, tolerance: Option<real>,
                           matched: seq<Match>, unmatchedCurrent: seq<real>, unmatchedBaseline: seq<real>)
  {
    exists pairing :: Greedy(current, baseline, tolerance, pairing)
                      && Reports(current, baseline, pairing, matched, unmatchedCurrent, unmatchedBaseline)
  }

  /** The inner loop: one scan of the baseline for one current peak. */
  method BestIndex(p: Peak, baseline: seq<Peak>, window: real, baselineUsed: set<nat>) returns (bestIndex: Option<nat>)
    ensures Nearest(p, baseline, window, baselineUsed, bestIndex)
  {
    bestIndex := None;
    var bestDelta: Option<real> := None;  // None is infinity
    for k := 0 to |baseline|
      invariant bestDelta.Some? <==> bestIndex.Some?
      invariant bestIndex.Some? ==> bestIndex.value < k && bestDelta.value == Delta(baseline[bestIndex.value], p)
      invariant Nearest(p, baseline[..k], window, baselineUsed, bestIndex)
    {
      ghost var before := bestIndex;
      if k !in baselineUsed {
        var delta := Delta(baseline[k], p);
        if (bestDelta.None? || delta < bestDelta.value) && delta <= window {
          bestDelta := Some(delta);
          bestIndex := Some(k);
        }
      }
      NearestStep(p, baseline, window, baselineUsed, before, k);
    }
    assert baseline[..|baseline|] == baseline;
  }

  method CompareToBaseline(current: seq<Peak>, baseline: seq<Peak>, tolerance: Option<real>)
    returns (matched: seq<Match>, unmatchedCurrent: seq<real>, unmatchedBaseline: seq<real>)
    ensures Compared(current, baseline, tolerance, matched, unmatchedCurrent, unmatchedBaseline)
  {
    matched, unmatchedCurrent := [], [];
    ghost var pairing: Pairing := [];
    var baselineUsed: set<nat> := {};
    for i := 0 to |current|
      invariant |pairing| == i && Greedy(current, baseline, tolerance, pairing) && InRange(pairing, baseline)
      invariant baselineUsed == Taken(pairing, i)
      invariant matched == Matches(current, baseline, pairing)
      invariant unmatchedCurrent == UnmatchedCurrent(current, pairing)
    {
      var p := current[i];
      var window := Window(p, tolerance);
      var bestIndex := BestIndex(p, baseline, window, baselineUsed);
      ghost var longer := pairing + [bestIndex];
      TakenStep(pairing, bestIndex);
      GreedyStep(current, baseline, tolerance, pairing, bestIndex);
      assert longer[..i] == pairing;
      pairing := longer;
      if bestIndex.None? {
        unmatchedCurrent := unmatchedCurrent + [p.frequencyHz];
      } else {
        baselineUsed := baselineUsed + {bestIndex.value};
        matched := matched + [MatchOf(p, baseline[bestIndex.value])];
      }
    }
    unmatchedBaseline := [];
    for k := 0 to |baseline|
      invariant unmatchedBaseline == UnmatchedBaseline(baseline[..k], baselineUsed)
    {
      assert baseline[..k + 1][..k] == baseline[..k];
      if k !in baselineUsed {
        unmatchedBaseline := unmatchedBaseline + [baseline[k].frequencyHz];
      }
    }
    assert baseline[..|baseline|] == baseline;
    assert Reports(current, baseline, pairing, matched, unmatchedCurrent, unmatchedBaseline);
  }

  // ─── What the matching guarantees ──────────────────────────────────────────────────

  /** The pairing is a function of the inputs: whoever follows the rule gets this one. */
  lemma {:induction false} Deterministic(current: seq<Peak>, baseline: seq<Peak>, tolerance: Option<real>, a: Pairing,
                                         b: Pairing)
    requires |a| == |b| && Greedy(current, baseline, tolerance, a) && Greedy(current, baseline, tolerance, b)
    ensures a == b
  {
    if a != [] {
      var i := |a| - 1;
      GreedyPrefix(current, baseline, tolerance, a, i);
      GreedyPrefix(current, baseline, tolerance, b, i);
      Deterministic(current, baseline, tolerance, a[..i], b[..i]);
      TakenSame(a, a[..i], i);
      TakenSame(b, b[..i], i);
      var taken := Taken(a, i);
      assert Chose(current, baseline, tolerance, a, i) && Chose(current, baseline, tolerance, b, i);
      assert a[i].Some? ==> Candidate(current[i], baseline, Window(current[i], tolerance), taken, a[i].value);
      assert b[i].Some? ==> Candidate(current[i], baseline, Window(current[i], tolerance), taken, b[i].value);
      assert a == a[..i] + [a[i]] && b == b[..i] + [b[i]];
    }
  }

  lemma GreedyPrefix(current: seq<Peak>, baseline: seq<Peak>, tolerance: Option<real>, pairing: Pairing, count: nat)
    requires count <= |pairing| && Greedy(current, baseline, tolerance, pairing)
    ensures Greedy(current, baseline, tolerance, pairing[..count])
  {
    forall i | 0 <= i < count ensures Chose(current, baseline, tolerance, pairing[..count], i) {
      TakenSame(pairing, pairing[..count], i);
      assert Chose(current, baseline, tolerance, pairing, i);
    }
  }

  lemma OneToOne(current: seq<Peak>, baseline: seq<Peak>, tolerance: Option<real>, pairing: Pairing)
    requires Greedy(current, baseline, tolerance, pairing)
    ensures forall i, j ::
              0 <= i < j < |pairing| && pairing[i].Some? && pairing[j].Some? ==> pairing[i].value != pairing[j].value
  {
    forall i, j | 0 <= i < j < |pairing| && pairing[i].Some? && pairing[j].Some?
      ensures pairing[i].value != pairing[j].value
    {
      GreedyShape(current, baseline, tolerance, pairing);
      assert pairing[i].value in Taken(pairing, j);
    }
  }

  /**
   An entry's numbers belong together: the shift leads from the baseline to the current frequency, and
   so does the percentage, which is missing exactly for a baseline of zero; a shift counts as real
   exactly when it is larger than the resolution and than rounding noise.
   */
  predicate Balanced(m: Match) {
    && m.baselineHz + m.shiftHz == m.currentHz
    && (m.shiftPercent.None? <==> m.baselineHz == 0.0)
    && (m.shiftPercent.Some? ==> m.baselineHz * (1.0 + m.shiftPercent.value / 100.0) == m.currentHz)
    && (m.exceedsResolution <==> Apart(m.baselineHz, m.currentHz, m.resolutionHz)
                                 && Apart(m.baselineHz, m.currentHz, 0.000000000001))
  }

  predicate Apart(a: real, b: real, distance: real) {
    a < b - distance || b < a - distance
  }

  lemma Percent(base: real, shift: real)
    requires base != 0.0
    ensures base * (1.0 + (shift / base * 100.0) / 100.0) == base + shift
  {
    assert (shift / base * 100.0) / 100.0 == shift / base;
    assert base * (shift / base) == shift;
    assert base * (1.0 + shift / base) == base * 1.0 + base * (shift / base);
  }

  lemma EntryBalanced(p: Peak, b: Peak)
    ensures var m := MatchOf(p, b);
            Balanced(m) && m.baselineHz == b.frequencyHz && m.currentHz == p.frequencyHz
            && m.resolutionHz == p.resolutionHz
  {
    if b.frequencyHz != 0.0 {
      Percent(b.frequencyHz, p.frequencyHz - b.frequencyHz);
    }
  }

  /** The entry of current peak `i`: both frequencies, the current peak's resolution, and what follows from them. */
  predicate EntryOf(m: Match, p: Peak, b: Peak) {
    && m.baselineHz == b.frequencyHz && m.currentHz == p.frequencyHz && m.resolutionHz == p.resolutionHz
    && Balanced(m)
  }

  /** How many peaks before `i` were matched. */
  function MatchedBefore(pairing: Pairing, i: nat): nat
    requires i <= |pairing|
  {
    |set j | 0 <= j < i && pairing[j].Some?|
  }

  lemma MatchedOneMore(pairing: Pairing, i: nat)
    requires i < |pairing|
    ensures MatchedBefore(pairing, i + 1) == MatchedBefore(pairing, i) + if pairing[i].Some? then 1 else 0
  {
    var before := set j | 0 <= j < i && pairing[j].Some?;
    var after := set j | 0 <= j < i + 1 && pairing[j].Some?;
    if pairing[i].Some? {
      assert after == before + {i};
    } else {
      assert after == before;
    }
  }

  lemma MatchesMore(current: seq<Peak>, baseline: seq<Peak>, pairing: Pairing, n: nat)
    requires n < |pairing| <= |current| && InRange(pairing, baseline)
    ensures InRange(pairing[..n], baseline) && InRange(pairing[..n + 1], baseline)
    ensures Matches(current, baseline, pairing[..n + 1])
            == Matches(current, baseline, pairing[..n])
               + if pairing[n].Some? then [MatchOf(current[n], baseline[pairing[n].value])] else []
  {
    assert pairing[..n + 1][..n] == pairing[..n];
  }

  lemma {:induction false} EntriesUpTo(current: seq<Peak>, baseline: seq<Peak>, pairing: Pairing, n: nat)
    requires n <= |pairing| <= |current| && InRange(pairing, baseline)
    ensures InRange(pairing[..n], baseline)
    ensures |Matches(current, baseline, pairing[..n])| == MatchedBefore(pairing, n)
    ensures forall i :: 0 <= i < n && pairing[i].Some? ==> Entered(current, baseline, pairing, n, i)
  {
    if n > 0 {
      EntriesUpTo(current, baseline, pairing, n - 1);
      MatchedOneMore(pairing, n - 1);
      MatchesMore(current, baseline, pairing, n - 1);
      forall i | 0 <= i < n && pairing[i].Some? ensures Entered(current, baseline, pairing, n, i) {
        if i < n - 1 {
          assert Entered(current, baseline, pairing, n - 1, i);
        } else {
          EntryBalanced(current[i], baseline[pairing[i].value]);
        }
      }
    }
  }

  /** Current peak `i`, if matched, has its entry after those of the matched peaks before it. */
  ghost predicate Entered(current: seq<Peak>, baseline: seq<Peak>, pairing: Pairing, n: nat, i: nat)
    requires i < n <= |pairing| <= |current| && InRange(pairing, baseline) && InRange(pairing[..n], baseline)
    requires pairing[i].Some?
  {
    var entries := Matches(current, baseline, pairing[..n]);
    MatchedBefore(pairing, i) < |entries|
    && EntryOf(entries[MatchedBefore(pairing, i)], current[i], baseline[pairing[i].value])
  }

  /** The reported list, entry by entry: one for each matched current peak, in their order, and what it says. */
  lemma EntriesAre(current: seq<Peak>, baseline: seq<Peak>, tolerance: Option<real>,
                   matched: seq<Match>, unmatchedCurrent: seq<real>, unmatchedBaseline: seq<real>)
    returns (pairing: Pairing)
    requires Compared(current, baseline, tolerance, matched, unmatchedCurrent, unmatchedBaseline)
    ensures |pairing| == |current| && Greedy(current, baseline, tolerance, pairing) && InRange(pairing, baseline)
    ensures |matched| == MatchedBefore(pairing, |pairing|)
    ensures forall i :: 0 <= i < |pairing| && pairing[i].Some? ==>
              MatchedBefore(pairing, i) < |matched|
              && EntryOf(matched[MatchedBefore(pairing, i)], current[i], baseline[pairing[i].value])
  {
    pairing :| Greedy(current, baseline, tolerance, pairing)
               && Reports(current, baseline, pairing, matched, unmatchedCurrent, unmatchedBaseline);
    EntriesUpTo(current, baseline, pairing, |pairing|);
    assert pairing[..|pairing|] == pairing;
    forall i | 0 <= i < |pairing| && pairing[i].Some?
      ensures MatchedBefore(pairing, i) < |matched|
              && EntryOf(matched[MatchedBefore(pairing, i)], current[i], baseline[pairing[i].value])
    {
      assert Entered(current, baseline, pairing, |pairing|, i);
    }
  }

  lemma {:induction false} AllBalanced(current: seq<Peak>, baseline: seq<Peak>, pairing: Pairing)
    requires |pairing| <= |current| && InRange(pairing, baseline)
    ensures forall m <- Matches(current, baseline, pairing) :: Balanced(m)
  {
    if pairing != [] {
      var i := |pairing| - 1;
      AllBalanced(current, baseline, pairing[..i]);
      if pairing[i].Some? {
        EntryBalanced(current[i], baseline[pairing[i].value]);
      }
    }
  }

  /**
   So no reported entry contradicts itself: a frequency that fell is reported with a negative shift
   and percentage.
   */
  lemma ShiftsBalance(current: seq<Peak>, baseline: seq<Peak>, tolerance: Option<real>,
                      matched: seq<Match>, unmatchedCurrent: seq<real>, unmatchedBaseline: seq<real>)
    requires Compared(current, baseline, tolerance, matched, unmatchedCurrent, unmatchedBaseline)
    ensures forall m <- matched :: Balanced(m)
  {
    var pairing :| Greedy(current, baseline, tolerance, pairing)
                   && Reports(current, baseline, pairing, matched, unmatchedCurrent, unmatchedBaseline);
    AllBalanced(current, baseline, pairing);
  }

  /** Near enough to be the same peak: within the given tolerance, or else within 5 % or two resolutions. */
  predicate Fits(p: Peak, b: Peak, tolerance: Option<real>) {
    match tolerance
    case Some(t) => !Apart(b.frequencyHz, p.frequencyHz, t)
    case None =>
      || !Apart(20.0 * b.frequencyHz, 20.0 * p.frequencyHz, p.frequencyHz)
      || !Apart(b.frequencyHz, p.frequencyHz, 2.0 * p.resolutionHz)
  }

  lemma WindowFits(p: Peak, b: Peak, tolerance: Option<real>)
    ensures Delta(b, p) <= Window(p, tolerance) <==> Fits(p, b, tolerance)
  {}

  /** Every matched pair is near enough. */
  lemma WithinWindow(current: seq<Peak>, baseline: seq<Peak>, tolerance: Option<real>, pairing: Pairing, i: nat)
    requires Greedy(current, baseline, tolerance, pairing) && i < |pairing| && pairing[i].Some?
    ensures pairing[i].value < |baseline| && Fits(current[i], baseline[pairing[i].value], tolerance)
  {
    assert Chose(current, baseline, tolerance, pairing, i);
    WindowFits(current[i], baseline[pairing[i].value], tolerance);
  }

  /**
   Nothing better is left on the table: an unmatched current peak has no leftover baseline peak
   inside its window, and a matched one has none strictly nearer.
   */
  lemma NothingBetterLeft(current: seq<Peak>, baseline: seq<Peak>, tolerance: Option<real>, pairing: Pairing, i: nat,
                          k: nat)
    requires Greedy(current, baseline, tolerance, pairing)
    requires i < |pairing| && k < |baseline| && k !in Taken(pairing, |pairing|)
    ensures InRange(pairing, baseline)
    ensures pairing[i].None? ==> !Fits(current[i], baseline[k], tolerance)
    ensures pairing[i].Some? ==>
              Abs(baseline[pairing[i].value].frequencyHz - current[i].frequencyHz)
              <= Abs(baseline[k].frequencyHz - current[i].frequencyHz)
  {
    WindowFits(current[i], baseline[k], tolerance);
    GreedyShape(current, baseline, tolerance, pairing);
    assert Chose(current, baseline, tolerance, pairing, i);
    assert k !in Taken(pairing, i);
    assert Candidate(current[i], baseline, Window(current[i], tolerance), Taken(pairing, i), k)
      <==> Delta(baseline[k], current[i]) <= Window(current[i], tolerance);
  }

  function Frequencies(peaks: seq<Peak>): seq<real> {
    if peaks == [] then [] else Frequencies(peaks[..|peaks| - 1]) + [peaks[|peaks| - 1].frequencyHz]
  }

  function CurrentSide(matches: seq<Match>): seq<real> {
    if matches == [] then [] else CurrentSide(matches[..|matches| - 1]) + [matches[|matches| - 1].currentHz]
  }

  function BaselineSide(matches: seq<Match>): seq<real> {
    if matches == [] then [] else BaselineSide(matches[..|matches| - 1]) + [matches[|matches| - 1].baselineHz]
  }

  lemma SidesStep(matches: seq<Match>, m: Match)
    ensures CurrentSide(matches + [m]) == CurrentSide(matches) + [m.currentHz]
    ensures BaselineSide(matches + [m]) == BaselineSide(matches) + [m.baselineHz]
  {
    assert (matches + [m])[..|matches|] == matches;
  }

  /** What one more choice adds to the two reported lists. */
  lemma ReportStep(current: seq<Peak>, baseline: seq<Peak>, pairing: Pairing, choice: Option<nat>)
    requires |pairing| < |current| && InRange(pairing + [choice], baseline)
    ensures InRange(pairing, baseline)
    ensures var before, after := Matches(current, baseline, pairing), Matches(current, baseline, pairing + [choice]);
            var p := current[|pairing|];
            if choice.Some? then
              && CurrentSide(after) == CurrentSide(before) + [p.frequencyHz]
              && BaselineSide(after) == BaselineSide(before) + [baseline[choice.value].frequencyHz]
              && UnmatchedCurrent(current, pairing + [choice]) == UnmatchedCurrent(current, pairing)
            else
              && after == before
              && UnmatchedCurrent(current, pairing + [choice]) == UnmatchedCurrent(current, pairing) + [p.frequencyHz]
  {
    var longer := pairing + [choice];
    assert longer[|pairing|] == choice;
    forall i | 0 <= i < |pairing| && pairing[i].Some? ensures pairing[i].value < |baseline| {
      assert longer[i] == pairing[i];
    }
    assert longer[..|longer| - 1] == pairing;
    if choice.Some? {
      SidesStep(Matches(current, baseline, pairing), MatchOf(current[|pairing|], baseline[choice.value]));
    }
  }

  lemma CurrentStep(current: seq<Peak>, baseline: seq<Peak>, pairing: Pairing, choice: Option<nat>)
    requires |pairing| < |current| && InRange(pairing + [choice], baseline)
    ensures InRange(pairing, baseline)
    ensures multiset(CurrentSide(Matches(current, baseline, pairing + [choice])))
            + multiset(UnmatchedCurrent(current, pairing + [choice]))
            == multiset(CurrentSide(Matches(current, baseline, pairing))) + multiset(UnmatchedCurrent(current, pairing))
               + multiset{current[|pairing|].frequencyHz}
  {
    ReportStep(current, baseline, pairing, choice);
    MultisetSnoc(CurrentSide(Matches(current, baseline, pairing)), current[|pairing|].frequencyHz);
    MultisetSnoc(UnmatchedCurrent(current, pairing), current[|pairing|].frequencyHz);
  }

  lemma FrequenciesStep(peaks: seq<Peak>, i: nat)
    requires i < |peaks|
    ensures multiset(Frequencies(peaks[..i + 1])) == multiset(Frequencies(peaks[..i])) + multiset{peaks[i].frequencyHz}
  {
    assert peaks[..i + 1][..i] == peaks[..i];
    MultisetSnoc(Frequencies(peaks[..i]), peaks[i].frequencyHz);
  }

  /** Every current frequency is reported exactly once, matched or unmatched, duplicates included. */
  lemma {:induction false} CurrentConserved(current: seq<Peak>, baseline: seq<Peak>, pairing: Pairing)
    requires |pairing| <= |current| && InRange(pairing, baseline)
    ensures multiset(Frequencies(current[..|pairing|]))
            == multiset(CurrentSide(Matches(current, baseline, pairing))) + multiset(UnmatchedCurrent(current, pairing))
    decreases |pairing|, 1
  {
    if pairing == [] {
      assert current[..0] == [];
    } else {
      var shorter, choice := pairing[..|pairing| - 1], pairing[|pairing| - 1];
      assert pairing == shorter + [choice];
      CurrentOneMore(current, baseline, shorter, choice);
    }
  }

  lemma {:induction false} CurrentOneMore(current: seq<Peak>, baseline: seq<Peak>, pairing: Pairing,
                                          choice: Option<nat>)
    requires |pairing| < |current| && InRange(pairing + [choice], baseline)
    ensures multiset(Frequencies(current[..|pairing| + 1]))
            == multiset(CurrentSide(Matches(current, baseline, pairing + [choice])))
               + multiset(UnmatchedCurrent(current, pairing + [choice]))
    decreases |pairing| + 1, 0
  {
    CurrentStep(current, baseline, pairing, choice);
    CurrentConserved(current, baseline, pairing);
    FrequenciesStep(current, |pairing|);
  }

  lemma MultisetConcat(xs: seq<real>, ys: seq<real>)
    ensures multiset(xs + ys) == multiset(xs) + multiset(ys)
  {}

  function LeftOver(baseline: seq<Peak>, taken: set<nat>, k: nat): seq<real>
    requires k < |baseline|
  {
    if k in taken then [] else [baseline[k].frequencyHz]
  }

  lemma LeftOverStep(baseline: seq<Peak>, taken: set<nat>)
    requires baseline != []
    ensures var last := |baseline| - 1;
            multiset(UnmatchedBaseline(baseline, taken))
            == multiset(UnmatchedBaseline(baseline[..last], taken)) + multiset(LeftOver(baseline, taken, last))
  {
    MultisetConcat(UnmatchedBaseline(baseline[..|baseline| - 1], taken), LeftOver(baseline, taken, |baseline| - 1));
  }

  /** Taking one more baseline peak removes exactly its frequency from the leftovers. */
  lemma {:induction false} TakeOne(baseline: seq<Peak>, taken: set<nat>, k: nat)
    requires k < |baseline| && k !in taken
    ensures multiset(UnmatchedBaseline(baseline, taken))
            == multiset(UnmatchedBaseline(baseline, taken + {k})) + multiset{baseline[k].frequencyHz}
  {
    var last, more := |baseline| - 1, taken + {k};
    LeftOverStep(baseline, taken);
    LeftOverStep(baseline, more);
    LeftOverTaken(baseline, taken, k, last);
    if k == last {
      SameBelow(baseline[..last], taken, more);
    } else {
      TakeOne(baseline[..last], taken, k);
    }
    Differ(multiset(UnmatchedBaseline(baseline[..last], taken)), multiset(LeftOver(baseline, taken, last)),
           multiset(UnmatchedBaseline(baseline[..last], more)), multiset(LeftOver(baseline, more, last)),
           multiset{baseline[k].frequencyHz});
  }

  lemma LeftOverTaken(baseline: seq<Peak>, taken: set<nat>, k: nat, i: nat)
    requires i < |baseline| && k < |baseline| && k !in taken
    ensures if i == k
            then multiset(LeftOver(baseline, taken, i))
              == multiset(LeftOver(baseline, taken + {k}, i)) + multiset{baseline[k].frequencyHz}
            else multiset(LeftOver(baseline, taken, i)) == multiset(LeftOver(baseline, taken + {k}, i))
  {}

  lemma Differ(a: multiset<real>, b: multiset<real>, a': multiset<real>, b': multiset<real>, x: multiset<real>)
    requires (a == a' && b == b' + x) || (a == a' + x && b == b')
    ensures a + b == a' + b' + x
  {}

  lemma {:induction false} SameBelow(baseline: seq<Peak>, a: set<nat>, b: set<nat>)
    requires forall k: nat :: k < |baseline| ==> (k in a <==> k in b)
    ensures UnmatchedBaseline(baseline, a) == UnmatchedBaseline(baseline, b)
  {
    if baseline != [] {
      SameBelow(baseline[..|baseline| - 1], a, b);
    }
  }

  lemma {:induction false} NothingTaken(baseline: seq<Peak>)
    ensures UnmatchedBaseline(baseline, {}) == Frequencies(baseline)
  {
    if baseline != [] {
      NothingTaken(baseline[..|baseline| - 1]);
    }
  }

  lemma DistinctPrefix(pairing: Pairing)
    requires Distinct(pairing) && pairing != []
    ensures var shorter := pairing[..|pairing| - 1];
            Distinct(shorter) && Taken(shorter, |shorter|) == Taken(pairing, |shorter|)
  {
    var shorter := pairing[..|pairing| - 1];
    forall j | 0 <= j <= |shorter| ensures Taken(shorter, j) == Taken(pairing, j) {
      TakenSame(pairing, shorter, j);
    }
  }

  lemma MultisetSnoc(xs: seq<real>, x: real)
    ensures multiset(xs + [x]) == multiset(xs) + multiset{x}
  {}

  lemma BaselineStep(current: seq<Peak>, baseline: seq<Peak>, pairing: Pairing, choice: Option<nat>)
    requires |pairing| < |current| && InRange(pairing + [choice], baseline)
    requires choice.Some? ==> choice.value !in Taken(pairing, |pairing|)
    ensures InRange(pairing, baseline)
    ensures multiset(BaselineSide(Matches(current, baseline, pairing + [choice])))
            + multiset(UnmatchedBaseline(baseline, Taken(pairing + [choice], |pairing| + 1)))
            == multiset(BaselineSide(Matches(current, baseline, pairing)))
               + multiset(UnmatchedBaseline(baseline, Taken(pairing, |pairing|)))
  {
    ReportStep(current, baseline, pairing, choice);
    var taken, takenAfter := Taken(pairing, |pairing|), Taken(pairing + [choice], |pairing| + 1);
    assert takenAfter == taken + if choice.Some? then {choice.value} else {} by {
      TakenStep(pairing, choice);
    }
    if choice.Some? {
      TakeOne(baseline, taken, choice.value);
      MultisetSnoc(BaselineSide(Matches(current, baseline, pairing)), baseline[choice.value].frequencyHz);
    } else {
      assert takenAfter == taken;
    }
  }

  /** Every baseline frequency is reported exactly once, matched or left over. */
  lemma {:induction false} BaselineConserved(current: seq<Peak>, baseline: seq<Peak>, pairing: Pairing)
    requires |pairing| <= |current| && InRange(pairing, baseline) && Distinct(pairing)
    ensures multiset(Frequencies(baseline))
            == multiset(BaselineSide(Matches(current, baseline, pairing)))
               + multiset(UnmatchedBaseline(baseline, Taken(pairing, |pairing|)))
  {
    if pairing == [] {
      assert Taken(pairing, 0) == {};
      NothingTaken(baseline);
    } else {
      var shorter, choice := pairing[..|pairing| - 1], pairing[|pairing| - 1];
      DistinctPrefix(pairing);
      assert shorter + [choice] == pairing;
      BaselineStep(current, baseline, shorter, choice);
      BaselineConserved(current, baseline, shorter);
    }
  }

  /** The reported lists lose nothing and invent nothing, on either side. */
  lemma Conserved(current: seq<Peak>, baseline: seq<Peak>, tolerance: Option<real>, pairing: Pairing)
    requires Greedy(current, baseline, tolerance, pairing) && |pairing| == |current|
    ensures InRange(pairing, baseline)
    ensures multiset(Frequencies(current))
            == multiset(CurrentSide(Matches(current, baseline, pairing))) + multiset(UnmatchedCurrent(current, pairing))
    ensures multiset(Frequencies(baseline))
            == multiset(BaselineSide(Matches(current, baseline, pairing)))
               + multiset(UnmatchedBaseline(baseline, Taken(pairing, |pairing|)))
  {
    GreedyShape(current, baseline, tolerance, pairing);
    CurrentConserved(current, baseline, pairing);
    assert current[..|pairing|] == current;
    BaselineConserved(current, baseline, pairing);
  }

  // ─── A list compared with itself ───────────────────────────────────────────────────

  ghost predicate MatchedInPlace(peaks: seq<Peak>, pairing: Pairing, i: nat)
    requires i < |pairing| <= |peaks|
  {
    pairing[i].Some? && pairing[i].value < |peaks| && peaks[pairing[i].value].frequencyHz == peaks[i].frequencyHz
  }

  lemma {:induction false} ImageNoLarger(js: set<nat>, pairing: Pairing)
    requires forall j <- js :: j < |pairing| && pairing[j].Some?
    ensures |set j | j in js :: pairing[j].value| <= |js|
    decreases js
  {
    var image := set j | j in js :: pairing[j].value;
    if js != {} {
      var j :| j in js;
      var fewer := js - {j};
      ImageNoLarger(fewer, pairing);
      var smaller := set m | m in fewer :: pairing[m].value;
      assert image == smaller + {pairing[j].value};
    }
  }

  /** If all earlier peaks took an equal frequency, an equal frequency is still free for peak `i`. */
  lemma FreeEqual(peaks: seq<Peak>, pairing: Pairing, i: nat) returns (k: nat)
    requires |pairing| <= |peaks| && i < |pairing|
    requires forall j :: 0 <= j < i ==> MatchedInPlace(peaks, pairing, j)
    ensures k < |peaks| && k !in Taken(pairing, i) && peaks[k].frequencyHz == peaks[i].frequencyHz
  {
    var f := peaks[i].frequencyHz;
    var equal := set m: nat | m < |peaks| && peaks[m].frequencyHz == f;
    var earlier := set j: nat | j < i && peaks[j].frequencyHz == f;
    assert forall j <- earlier :: MatchedInPlace(peaks, pairing, j);
    ImageNoLarger(earlier, pairing);
    var image := set j | j in earlier :: pairing[j].value;
    assert i in equal && i !in earlier && earlier + {i} <= equal;
    Cardinality(earlier + {i}, equal);
    if equal <= image {
      Cardinality(equal, image);
    }
    k :| k in equal && k !in image;
    forall j: nat | j < i && pairing[j].Some? ensures pairing[j].value != k {
      assert MatchedInPlace(peaks, pairing, j);
      assert j in earlier || peaks[pairing[j].value].frequencyHz != f;
    }
  }

  lemma {:induction false} Cardinality(a: set<nat>, b: set<nat>)
    requires a <= b
    ensures |a| <= |b|
  {
    if a != {} {
      var x :| x in a;
      Cardinality(a - {x}, b - {x});
    }
  }

  /** A peak with an equal frequency free and a non-negative window takes an equal frequency. */
  lemma TakesEqual(p: Peak, baseline: seq<Peak>, window: real, taken: set<nat>, choice: Option<nat>, k: nat)
    requires Nearest(p, baseline, window, taken, choice) && window >= 0.0
    requires k < |baseline| && k !in taken && baseline[k].frequencyHz == p.frequencyHz
    ensures choice.Some? && choice.value < |baseline| && baseline[choice.value].frequencyHz == p.frequencyHz
  {
    assert Candidate(p, baseline, window, taken, k) && Delta(baseline[k], p) == 0.0;
  }

  lemma {:induction false} SelfPrefix(peaks: seq<Peak>, tolerance: Option<real>, pairing: Pairing, i: nat)
    requires Greedy(peaks, peaks, tolerance, pairing) && i <= |pairing|
    requires forall j :: 0 <= j < i ==> Window(peaks[j], tolerance) >= 0.0
    ensures forall j :: 0 <= j < i ==> MatchedInPlace(peaks, pairing, j)
  {
    if i > 0 {
      var last := i - 1;
      SelfPrefix(peaks, tolerance, pairing, last);
      var k := FreeEqual(peaks, pairing, last);
      assert Chose(peaks, peaks, tolerance, pairing, last);
      TakesEqual(peaks[last], peaks, Window(peaks[last], tolerance), Taken(pairing, last), pairing[last], k);
    }
  }

  ghost predicate NoNegativeWindow(peaks: seq<Peak>, tolerance: Option<real>) {
    forall i :: 0 <= i < |peaks| ==> Window(peaks[i], tolerance) >= 0.0
  }

  lemma DefaultWindow(peaks: seq<Peak>)
    requires forall p <- peaks :: p.frequencyHz >= 0.0
    ensures NoNegativeWindow(peaks, None)
  {}

  /**
   A list compared with itself, duplicates included: every peak is matched, and with zero shift,
   if and only if no window is negative. With the default window non-negative frequencies are enough.
   */
  lemma SelfComparison(peaks: seq<Peak>, tolerance: Option<real>, pairing: Pairing)
    requires Greedy(peaks, peaks, tolerance, pairing) && |pairing| == |peaks|
    ensures (forall i :: 0 <= i < |pairing| ==> MatchedInPlace(peaks, pairing, i))
            <==> NoNegativeWindow(peaks, tolerance)
    ensures forall i :: 0 <= i < |pairing| && MatchedInPlace(peaks, pairing, i) ==>
              MatchOf(peaks[i], peaks[pairing[i].value]).shiftHz == 0.0
    ensures tolerance.None? && (forall p <- peaks :: p.frequencyHz >= 0.0) ==> NoNegativeWindow(peaks, tolerance)
  {
    if tolerance.None? && forall p <- peaks :: p.frequencyHz >= 0.0 {
      DefaultWindow(peaks);
    }
    if NoNegativeWindow(peaks, tolerance) {
      SelfPrefix(peaks, tolerance, pairing, |pairing|);
    } else {
      var i: nat :| i < |peaks| && Window(peaks[i], tolerance) < 0.0;
      assert Chose(peaks, peaks, tolerance, pairing, i);
      assert !MatchedInPlace(peaks, pairing, i);
    }
  }
}
