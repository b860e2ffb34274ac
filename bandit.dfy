/**
 * The Thompson-sampling allocator of `app/bandit.py`.
 *
 * Per arm it keeps `a` (successes), `b` (failures) and `n` (exposures) in
 * default-dictionaries: a missing key reads as 1.0, 1.0 and 0. The arm list
 * and the discount are fixed at construction and never validated.
 * The Beta draws are inputs (`draws`, one value per element of the arm list,
 * in list order), since the random generator is outside the model.
 */
module Bandit {
  import opened Seqs

  /** What a key missing from `a` or `b` reads as. */
  const Prior: real := 1.0

  /** Read of a `defaultdict(lambda: 1.0)`. */
  function Get(m: map<string, real>, k: string): real {
    if k in m then m[k] else Prior
  }

  /** Read of a `defaultdict(int)`. */
  function Exposure(n: map<string, nat>, k: string): nat {
    if k in n then n[k] else 0
  }

  /** The two Beta-parameter dictionaries together. */
  datatype Beliefs = Beliefs(a: map<string, real>, b: map<string, real>) {
    function Alpha(k: string): real { Get(a, k) }
    function Beta(k: string): real { Get(b, k) }
  }

  /** The state of a freshly constructed bandit: both dictionaries empty. */
  const Fresh: Beliefs := Beliefs(map[], map[])

  /** Every key reads as a positive parameter. */
  predicate Positive(s: Beliefs) {
    (forall k :: k in s.a ==> s.a[k] > 0.0) && (forall k :: k in s.b ==> s.b[k] > 0.0)
  }

  /** `x` after `e` successive `*= d`. */
  function Scaled(x: real, d: real, e: nat): real {
    if e == 0 then x else Scaled(x, d, e - 1) * d
  }

  lemma ScaledOnce(x: real, d: real)
    ensures Scaled(x, d, 0) == x && Scaled(x, d, 1) == x * d
  {
  }

  lemma {:induction false} ScaledPositive(x: real, d: real, e: nat)
    requires x > 0.0 && d > 0.0
    ensures Scaled(x, d, e) > 0.0
  {
    if e > 0 {
      ScaledPositive(x, d, e - 1);
    }
  }

  // ---------------------------------------------------------------------
  // update
  // ---------------------------------------------------------------------

  /**
   * The decay loop of `update`: `m[k] *= d` for every `k` of `ks` in order.
   * An arm that occurs several times in `ks` is scaled once per occurrence;
   * a key outside `ks` is left alone.
   */
  function Decay(m: map<string, real>, ks: seq<string>, d: real): map<string, real> {
    if ks == [] then m
    else MulAssign(Decay(m, ks[..|ks| - 1], d), ks[|ks| - 1], d)
  }

  /** After the loop, a key listed `c` times has been multiplied by `d` exactly `c` times. */
  lemma {:induction false} DecayGet(m: map<string, real>, ks: seq<string>, d: real, k: string)
    ensures Get(Decay(m, ks, d), k) == Scaled(Get(m, k), d, Count(ks, k))
  {
    if ks != [] {
      DecayGet(m, ks[..|ks| - 1], d, k);
    }
  }

  /** `m[k] *= d` on a default-dictionary. */
  function MulAssign(m: map<string, real>, k: string, d: real): map<string, real> {
    m[k := Get(m, k) * d]
  }

  /** `m[k] += x` on a default-dictionary. */
  function AddAssign(m: map<string, real>, k: string, x: real): map<string, real> {
    m[k := Get(m, k) + x]
  }

  /** One more pass of the decay loop. */
  lemma DecayStep(m: map<string, real>, ks: seq<string>, k: string, d: real)
    ensures Decay(m, ks + [k], d) == MulAssign(Decay(m, ks, d), k, d)
  {
    assert (ks + [k])[..|ks|] == ks;
  }

  /**
   * `update(arm, reward)`: when `discount < 1.0`, both parameters of every
   * configured arm are first multiplied by the discount; then the reward is
   * folded into the target arm alone. Neither the arm nor the reward nor the
   * discount is checked.
   */
  function Updated(s: Beliefs, arms: seq<string>, discount: real, arm: string, reward: real): Beliefs {
    var d := if discount < 1.0 then Beliefs(Decay(s.a, arms, discount), Decay(s.b, arms, discount)) else s;
    Beliefs(AddAssign(d.a, arm, reward), AddAssign(d.b, arm, 1.0 - reward))
  }

  /**
   * What `update` leaves in every key: the configured arms decayed once per
   * listing (only when the discount is below 1), then `reward` added to the
   * target's alpha and `1 - reward` to its beta; no other key gains anything.
   */
  lemma UpdatedRead(s: Beliefs, arms: seq<string>, discount: real, arm: string, reward: real, k: string)
    ensures var r := Updated(s, arms, discount, arm, reward);
      && r.Alpha(k) == (if discount < 1.0 then Scaled(s.Alpha(k), discount, Count(arms, k)) else s.Alpha(k))
                       + (if k == arm then reward else 0.0)
      && r.Beta(k) == (if discount < 1.0 then Scaled(s.Beta(k), discount, Count(arms, k)) else s.Beta(k))
                      + (if k == arm then 1.0 - reward else 0.0)
  {
    DecayGet(s.a, arms, discount, k);
    DecayGet(s.b, arms, discount, k);
  }

  /** Without decay every update adds exactly one unit of evidence to its arm. */
  lemma UpdatedEvidence(s: Beliefs, arms: seq<string>, discount: real, arm: string, reward: real)
    requires discount >= 1.0
    ensures var r := Updated(s, arms, discount, arm, reward);
      r.Alpha(arm) + r.Beta(arm) == s.Alpha(arm) + s.Beta(arm) + 1.0
  {
    UpdatedRead(s, arms, discount, arm, reward, arm);
  }

  /**
   * An arm outside the configured list is never decayed: `update` on it
   * starts from whatever it reads as (the (1, 1) prior if never written)
   * and adds the reward.
   */
  lemma UpdatedOutsideArms(s: Beliefs, arms: seq<string>, discount: real, arm: string, reward: real, k: string)
    requires k !in arms
    ensures var r := Updated(s, arms, discount, arm, reward);
      && r.Alpha(k) == s.Alpha(k) + (if k == arm then reward else 0.0)
      && r.Beta(k) == s.Beta(k) + (if k == arm then 1.0 - reward else 0.0)
  {
    UpdatedRead(s, arms, discount, arm, reward, k);
    CountZero(arms, k);
  }

  /** With distinct configured arms: each of them is scaled exactly once, any other key never. */
  lemma UpdatedDistinctArms(s: Beliefs, arms: seq<string>, discount: real, arm: string, reward: real, k: string)
    requires NoDup(arms)
    ensures var r := Updated(s, arms, discount, arm, reward);
      && r.Alpha(k) == (if discount < 1.0 && k in arms then s.Alpha(k) * discount else s.Alpha(k))
                       + (if k == arm then reward else 0.0)
      && r.Beta(k) == (if discount < 1.0 && k in arms then s.Beta(k) * discount else s.Beta(k))
                      + (if k == arm then 1.0 - reward else 0.0)
  {
    UpdatedRead(s, arms, discount, arm, reward, k);
    NoDupCount(arms, k);
    var c := Count(arms, k);
    assert c == if k in arms then 1 else 0;
    ScaledOnce(s.Alpha(k), discount);
    ScaledOnce(s.Beta(k), discount);
    assert Scaled(s.Alpha(k), discount, c) == if k in arms then s.Alpha(k) * discount else s.Alpha(k);
    assert Scaled(s.Beta(k), discount, c) == if k in arms then s.Beta(k) * discount else s.Beta(k);
  }

  /** Rewards in [0, 1] and a discount in (0, 1] keep every parameter positive. */
  lemma UpdatedKeepsPositive(s: Beliefs, arms: seq<string>, discount: real, arm: string, reward: real)
    requires Positive(s)
    requires 0.0 <= reward <= 1.0 && 0.0 < discount <= 1.0
    ensures Positive(Updated(s, arms, discount, arm, reward))
  {
    var r := Updated(s, arms, discount, arm, reward);
    forall k | k in r.a ensures r.a[k] > 0.0 {
      assert r.a[k] == r.Alpha(k);
      UpdatedRead(s, arms, discount, arm, reward, k);
      ScaledPositive(s.Alpha(k), discount, Count(arms, k));
    }
    forall k | k in r.b ensures r.b[k] > 0.0 {
      assert r.b[k] == r.Beta(k);
      UpdatedRead(s, arms, discount, arm, reward, k);
      ScaledPositive(s.Beta(k), discount, Count(arms, k));
    }
  }

  // ---------------------------------------------------------------------
  // ctr
  // ---------------------------------------------------------------------

  /** `ctr`: alpha / (alpha + beta), or 0.0 when the denominator is not positive. */
  function Rate(alpha: real, beta: real): (r: real)
    ensures alpha + beta > 0.0 ==> r * (alpha + beta) == alpha
    ensures alpha + beta <= 0.0 ==> r == 0.0
    ensures r == 0.0 <==> (alpha + beta <= 0.0 || alpha == 0.0)
    ensures alpha > 0.0 && beta > 0.0 ==> 0.0 < r < 1.0
    ensures alpha >= 0.0 && beta >= 0.0 ==> 0.0 <= r <= 1.0
  {
    var denom := alpha + beta;
    if denom > 0.0 then alpha / denom else 0.0
  }

  // ---------------------------------------------------------------------
  // Sequences of updates
  // ---------------------------------------------------------------------

  /** One `update(arm, reward)` call. */
  datatype Feedback = Feedback(arm: string, reward: real)

  /** The beliefs after applying `events` in order, starting from `s`. */
  function Replay(s: Beliefs, arms: seq<string>, discount: real, events: seq<Feedback>): Beliefs {
    if events == [] then s
    else
      var e := events[|events| - 1];
      Updated(Replay(s, arms, discount, events[..|events| - 1]), arms, discount, e.arm, e.reward)
  }

  /** Number of updates on arm `k`. */
  function Hits(events: seq<Feedback>, k: string): nat {
    if events == [] then 0
    else Hits(events[..|events| - 1], k) + (if events[|events| - 1].arm == k then 1 else 0)
  }

  /** Sum of the rewards reported for arm `k`. */
  function RewardSum(events: seq<Feedback>, k: string): real {
    if events == [] then 0.0
    else
      var e := events[|events| - 1];
      RewardSum(events[..|events| - 1], k) + (if e.arm == k then e.reward else 0.0)
  }

  /** Without decay, alpha gains the rewards and beta the complements, arm by arm. */
  lemma {:induction false} ReplayNoDecay(s: Beliefs, arms: seq<string>, discount: real, events: seq<Feedback>, k: string)
    requires discount >= 1.0
    ensures Replay(s, arms, discount, events).Alpha(k) == s.Alpha(k) + RewardSum(events, k)
    ensures Replay(s, arms, discount, events).Beta(k) == s.Beta(k) + Hits(events, k) as real - RewardSum(events, k)
  {
    if events != [] {
      var init, e := events[..|events| - 1], events[|events| - 1];
      ReplayNoDecay(s, arms, discount, init, k);
      UpdatedRead(Replay(s, arms, discount, init), arms, discount, e.arm, e.reward, k);
    }
  }

  /** Number of updates on `k` with reward exactly 1.0. */
  function Clicks(events: seq<Feedback>, k: string): nat {
    if events == [] then 0
    else
      var e := events[|events| - 1];
      Clicks(events[..|events| - 1], k) + (if e.arm == k && e.reward == 1.0 then 1 else 0)
  }

  /** Counting clicks: under rewards in {0, 1}, the reward sum is the number of 1.0 rewards. */
  lemma {:induction false} ClicksCounted(events: seq<Feedback>, k: string)
    requires forall i :: 0 <= i < |events| && events[i].arm == k ==> events[i].reward == 1.0 || events[i].reward == 0.0
    ensures Clicks(events, k) <= Hits(events, k)
    ensures RewardSum(events, k) == Clicks(events, k) as real
  {
    if events != [] {
      ClicksCounted(events[..|events| - 1], k);
    }
  }

  /**
   * From a fresh bandit without decay, the clicks (rewards 1.0) and skips
   * (rewards 0.0) reported for an arm leave it at (1 + clicks, 1 + skips),
   * so its rate is (1 + clicks) / (2 + clicks + skips).
   */
  lemma FreshClicks(arms: seq<string>, events: seq<Feedback>, k: string)
    requires forall i :: 0 <= i < |events| && events[i].arm == k ==> events[i].reward == 1.0 || events[i].reward == 0.0
    ensures var r := Replay(Fresh, arms, 1.0, events);
      var clicks, skips := Clicks(events, k), Hits(events, k) - Clicks(events, k);
      && r.Alpha(k) == 1.0 + clicks as real
      && r.Beta(k) == 1.0 + skips as real
      && Rate(r.Alpha(k), r.Beta(k)) == (1.0 + clicks as real) / (2.0 + (clicks + skips) as real)
  {
    ClicksCounted(events, k);
    ReplayNoDecay(Fresh, arms, 1.0, events, k);
  }

  /** Rewards in [0, 1] and a discount in (0, 1] keep every parameter positive along any run. */
  lemma {:induction false} ReplayKeepsPositive(s: Beliefs, arms: seq<string>, discount: real, events: seq<Feedback>)
    requires Positive(s) && 0.0 < discount <= 1.0
    requires forall i :: 0 <= i < |events| ==> 0.0 <= events[i].reward <= 1.0
    ensures Positive(Replay(s, arms, discount, events))
  {
    if events != [] {
      var init, e := events[..|events| - 1], events[|events| - 1];
      ReplayKeepsPositive(s, arms, discount, init);
      UpdatedKeepsPositive(Replay(s, arms, discount, init), arms, discount, e.arm, e.reward);
    }
  }

  // ---------------------------------------------------------------------
  // choose
  // ---------------------------------------------------------------------

  /**
   * The outcome of `choose`: the winning arm with the samples dictionary;
   * the ValueError `max` raises on an empty dictionary; or the ValueError
   * the Beta sampler raises for the first arm whose parameter is not positive.
   */
  datatype Choice =
    | Chosen(arm: string, samples: map<string, real>)
    | NoArms
    | Rejected(arm: string)

  /** The Beta sampler accepts the arm's current parameters. */
  predicate Accepts(s: Beliefs, k: string) {
    s.Alpha(k) > 0.0 && s.Beta(k) > 0.0
  }

  /** Index of the first arm the sampler refuses; `|arms|` when it refuses none. */
  function FirstRejected(arms: seq<string>, s: Beliefs): (i: nat)
    ensures i <= |arms|
    ensures forall j :: 0 <= j < i ==> Accepts(s, arms[j])
    ensures i < |arms| ==> !Accepts(s, arms[i])
  {
    if arms == [] then 0
    else if !Accepts(s, arms[0]) then 0
    else 1 + FirstRejected(arms[1..], s)
  }

  /**
   * The dictionary comprehension `{arm: draw for arm in arms}`: one key per
   * arm; for an arm listed twice, the later draw overwrites the earlier one.
   */
  function Samples(arms: seq<string>, draws: seq<real>): (r: map<string, real>)
    requires |draws| == |arms|
    ensures forall k :: k in r <==> k in arms
    ensures forall i :: 0 <= i < |arms| ==> r[arms[i]] == draws[LastIndexOf(arms, arms[i])]
  {
    if arms == [] then map[]
    else
      var n := |arms| - 1;
      var p := Samples(arms[..n], draws[..n]);
      var r := p[arms[n] := draws[n]];
      assert arms == arms[..n] + [arms[n]];
      forall i | 0 <= i < |arms| ensures r[arms[i]] == draws[LastIndexOf(arms, arms[i])] {
        if arms[i] != arms[n] {
          assert arms[..n][i] == arms[i];
        }
      }
      r
  }

  /** Every key of `ks` has a sample. */
  predicate Covers(ks: seq<string>, samples: map<string, real>) {
    forall j :: 0 <= j < |ks| ==> ks[j] in samples
  }

  lemma CoversDedup(ks: seq<string>, samples: map<string, real>)
    requires Covers(ks, samples)
    ensures |Dedup(ks)| > 0 <==> |ks| > 0
    ensures Covers(Dedup(ks), samples)
  {
    DedupMembers(ks);
    if |ks| > 0 {
      assert ks[0] in Dedup(ks);
    }
  }

  /**
   * `max(samples, key=samples.get)` over the keys `ks` in iteration order:
   * a later key replaces the current best only when its sample is strictly
   * greater.
   */
  function Best(ks: seq<string>, samples: map<string, real>): (w: string)
    requires |ks| > 0 && Covers(ks, samples)
    ensures w in ks && w in samples
  {
    if |ks| == 1 then ks[0]
    else
      var n := |ks| - 1;
      var b := Best(ks[..n], samples);
      if samples[ks[n]] > samples[b] then ks[n] else b
  }

  /** Appending a key: it takes over only with a strictly greater sample. */
  lemma BestSnoc(ks: seq<string>, x: string, samples: map<string, real>)
    requires |ks| > 0 && Covers(ks, samples) && x in samples
    ensures Covers(ks + [x], samples)
    ensures Best(ks + [x], samples) == if samples[x] > samples[Best(ks, samples)] then x else Best(ks, samples)
  {
    assert (ks + [x])[..|ks|] == ks;
  }

  /** The winner's sample is maximal. */
  lemma {:induction false} BestMax(ks: seq<string>, samples: map<string, real>)
    requires |ks| > 0 && Covers(ks, samples)
    ensures forall j :: 0 <= j < |ks| ==> samples[ks[j]] <= samples[Best(ks, samples)]
  {
    if |ks| > 1 {
      var n := |ks| - 1;
      var init, last := ks[..n], ks[n];
      assert ks == init + [last];
      BestMax(init, samples);
      BestSnoc(init, last, samples);
      forall j | 0 <= j < n ensures samples[ks[j]] <= samples[Best(ks, samples)] {
        assert ks[j] == init[j];
      }
    }
  }

  /** Ties go to the earliest key: every key before the winner's first occurrence is strictly smaller. */
  lemma {:induction false} BestFirst(ks: seq<string>, samples: map<string, real>)
    requires |ks| > 0 && Covers(ks, samples)
    ensures forall j :: 0 <= j < IndexOf(ks, Best(ks, samples)) ==> samples[ks[j]] < samples[Best(ks, samples)]
  {
    if |ks| > 1 {
      var n := |ks| - 1;
      var init, last := ks[..n], ks[n];
      assert ks == init + [last];
      BestFirst(init, samples);
      BestSnoc(init, last, samples);
      var b := Best(init, samples);
      if samples[last] > samples[b] {
        BestMax(init, samples);
        forall j | 0 <= j < IndexOf(ks, last) ensures samples[ks[j]] < samples[last] {
          assert ks[j] == init[j];
        }
      } else {
        IndexOfSnoc(init, last, b);
      }
    }
  }

  /**
   * Running `max` over the dictionary's keys (each arm once, in order of
   * first occurrence) picks the same arm as running it over the arm list
   * itself: a repeated arm carries the same sample and never wins a tie.
   */
  lemma {:induction false} BestDedup(ks: seq<string>, samples: map<string, real>)
    requires |ks| > 0 && Covers(ks, samples)
    ensures |Dedup(ks)| > 0 && Covers(Dedup(ks), samples)
    ensures Best(Dedup(ks), samples) == Best(ks, samples)
  {
    CoversDedup(ks, samples);
    if |ks| > 1 {
      var n := |ks| - 1;
      var init, last := ks[..n], ks[n];
      assert ks == init + [last];
      BestDedup(init, samples);
      BestSnoc(init, last, samples);
      DedupSnoc(init, last);
      if last in init {
        BestMax(init, samples);
        assert init[IndexOf(init, last)] == last;
      } else {
        BestSnoc(Dedup(init), last, samples);
      }
    }
  }

  /**
   * `choose` on beliefs `s`: sample every configured arm in list order
   * (failing at the first arm whose parameters the sampler refuses), then
   * take `max` over the samples dictionary.
   */
  function Select(arms: seq<string>, s: Beliefs, draws: seq<real>): (r: Choice)
    requires |draws| == |arms|
    ensures r.NoArms? <==> arms == []
    ensures r.Rejected? <==> exists j :: 0 <= j < |arms| && !Accepts(s, arms[j])
    ensures r.Rejected? ==> (
      && r.arm in arms && !Accepts(s, r.arm)
      && forall j :: 0 <= j < IndexOf(arms, r.arm) ==> Accepts(s, arms[j]))
    ensures r.Chosen? ==> r.samples == Samples(arms, draws) && r.arm in arms
  {
    var i := FirstRejected(arms, s);
    if i < |arms| then
      IndexOfUnique(arms, arms[i], i);
      Rejected(arms[i])
    else if arms == [] then NoArms
    else
      var smp := Samples(arms, draws);
      CoversDedup(arms, smp);
      Chosen(Best(Dedup(arms), smp), smp)
  }

  /**
   * The arm `choose` returns has a maximal sample among all configured arms,
   * and every arm listed before its first occurrence has a strictly smaller one.
   */
  lemma SelectWinner(arms: seq<string>, s: Beliefs, draws: seq<real>)
    requires |draws| == |arms|
    ensures var r := Select(arms, s, draws);
      r.Chosen? ==> (
        && (forall k :: k in r.samples <==> k in arms)
        && (forall j :: 0 <= j < |arms| ==> r.samples[arms[j]] <= r.samples[r.arm])
        && (forall j :: 0 <= j < IndexOf(arms, r.arm) ==> r.samples[arms[j]] < r.samples[r.arm]))
  {
    var r := Select(arms, s, draws);
    if r.Chosen? {
      BestDedup(arms, r.samples);
      BestMax(arms, r.samples);
      BestFirst(arms, r.samples);
    }
  }

  /** With positive beliefs (certain under discount in (0, 1] and rewards in [0, 1]) `choose` never fails on a non-empty arm list. */
  lemma SelectPositive(arms: seq<string>, s: Beliefs, draws: seq<real>)
    requires |draws| == |arms| && arms != [] && Positive(s)
    ensures Select(arms, s, draws).Chosen?
  {
    var i := FirstRejected(arms, s);
    if i < |arms| {
      assert !Accepts(s, arms[i]);
    }
  }

  /** A single configured arm is always the one chosen. */
  lemma SelectSingle(arm: string, s: Beliefs, draw: real)
    ensures var r := Select([arm], s, [draw]);
      r.Chosen? ==> r.arm == arm && r.samples == map[arm := draw]
  {
  }

  // ---------------------------------------------------------------------
  // The object
  // ---------------------------------------------------------------------

  class ThompsonBandit {
    const arms: seq<string>
    const discount: real
    var a: map<string, real>
    var b: map<string, real>
    var n: map<string, nat>

    function State(): Beliefs
      reads this
    {
      Beliefs(a, b)
    }

    /** `ctr(arm)`; an arm never seen reads as the (1, 1) prior. */
    function Ctr(arm: string): real
      reads this
    {
      Rate(Get(a, arm), Get(b, arm))
    }

    constructor (arms: seq<string>, discount: real)
      ensures this.arms == arms && this.discount == discount
      ensures State() == Fresh && n == map[]
      ensures forall k :: State().Alpha(k) == 1.0 && State().Beta(k) == 1.0 && Exposure(n, k) == 0
      ensures forall k :: Ctr(k) == 0.5
    {
      this.arms := arms;
      this.discount := discount;
      a, b, n := map[], map[], map[];
    }

    /**
     * `choose`: `draws[i]` is what the sampler returns for `arms[i]`. On
     * success the winner's exposure goes up by one; nothing else changes.
     */
    method Choose(draws: seq<real>) returns (r: Choice)
      requires |draws| == |arms|
      modifies this`n
      ensures r == Select(arms, State(), draws)
      ensures r.Chosen? ==> n == old(n)[r.arm := Exposure(old(n), r.arm) + 1]
      ensures !r.Chosen? ==> n == old(n)
      ensures a == old(a) && b == old(b)
    {
      r := Select(arms, State(), draws);
      if r.Chosen? {
        n := n[r.arm := Exposure(n, r.arm) + 1];
      }
    }

    /** `update(arm, reward)`: the decay loop, then the fold-in; `n` is untouched. */
    method Update(arm: string, reward: real)
      modifies this`a, this`b
      ensures State() == Updated(old(State()), arms, discount, arm, reward)
    {
      if discount < 1.0 {
        ghost var a0, b0 := a, b;
        for i := 0 to |arms|
          invariant a == Decay(a0, arms[..i], discount)
          invariant b == Decay(b0, arms[..i], discount)
        {
          var k := arms[i];
          assert arms[..i + 1] == arms[..i] + [k];
          DecayStep(a0, arms[..i], k, discount);
          DecayStep(b0, arms[..i], k, discount);
          a := MulAssign(a, k, discount);
          b := MulAssign(b, k, discount);
        }
        assert arms[..|arms|] == arms;
      }
      a := AddAssign(a, arm, reward);
      b := AddAssign(b, arm, 1.0 - reward);
    }
  }

  /**
   * The two-arm deployment without decay: `update("A", 1.0)` then
   * `update("B", 0.0)` leaves A at (2, 1) and B at (1, 2), so their rates
   * are 2/3 and 1/3.
   */
  method TwoArmRun() returns (alphaA: real, betaA: real, alphaB: real, betaB: real, ctrA: real, ctrB: real)
    ensures alphaA == 2.0 && betaA == 1.0 && alphaB == 1.0 && betaB == 2.0
    ensures ctrA == 2.0 / 3.0 && ctrB == 1.0 / 3.0
  {
    var bandit := new ThompsonBandit(["A", "B"], 1.0);
    ghost var s0 := bandit.State();
    bandit.Update("A", 1.0);
    ghost var s1 := bandit.State();
    UpdatedRead(s0, ["A", "B"], 1.0, "A", 1.0, "A");
    UpdatedRead(s0, ["A", "B"], 1.0, "A", 1.0, "B");
    bandit.Update("B", 0.0);
    UpdatedRead(s1, ["A", "B"], 1.0, "B", 0.0, "A");
    UpdatedRead(s1, ["A", "B"], 1.0, "B", 0.0, "B");
    alphaA, betaA := bandit.State().Alpha("A"), bandit.State().Beta("A");
    alphaB, betaB := bandit.State().Alpha("B"), bandit.State().Beta("B");
    ctrA := bandit.Ctr("A");
    ctrB := bandit.Ctr("B");
  }
}
