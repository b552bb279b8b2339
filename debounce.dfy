/**
 * Debouncing of the per-frame zone (main.py, lines 121-129): the displayed zone
 * changes only after the same computed zone has been seen on enough
 * consecutive frames.
 */
module Debounce {
  import opened Proximity

  /** Number of consecutive equal computed zones needed to change the display. */
  const StableFrames: nat := 3

  /**
   * The debouncer's state: the latest computed zone, how many frames in a row it
   * has been computed, and the committed zone that is displayed.
   */
  datatype Debouncer = Debouncer(prev: Zone, count: nat, display: Zone)

  /** The state before the first classified frame: SAFE, no frames seen, SAFE displayed. */
  const Initial: Debouncer := Debouncer(Safe, 0, Safe)

  /**
   * One frame's update with computed zone `z`. Afterwards `z` is the latest zone,
   * seen at least once; the display changes only when the run has reached
   * StableFrames, and then to `z`.
   */
  function Update(d: Debouncer, z: Zone): (r: Debouncer)
    ensures r.prev == z && r.count >= 1
    ensures z == d.prev ==> r.count == d.count + 1
    ensures z != d.prev ==> r.count == 1
    ensures r.display != d.display ==> r.count >= StableFrames && r.display == z
    ensures r.count >= StableFrames ==> r.display == z
  {
    var count := if z == d.prev then d.count + 1 else 1;
    Debouncer(z, count, if count >= StableFrames then z else d.display)
  }

  /**
   * The debouncer after the computed zones `zs`, starting from Initial: the
   * latest zone is the last one computed, and the display is SAFE or a zone
   * that was actually computed.
   */
  function Settle(zs: seq<Zone>): (d: Debouncer)
    ensures zs != [] ==> d.prev == zs[|zs| - 1] && d.count >= 1
    ensures d.display == Safe || d.display in zs
  {
    if zs == [] then Initial
    else
      var before := Settle(zs[..|zs| - 1]);
      assert before.display in zs[..|zs| - 1] ==> before.display in zs;
      Update(before, zs[|zs| - 1])
  }

  /** The zone displayed on each frame of `zs`. */
  function Displays(zs: seq<Zone>): (ds: seq<Zone>)
    ensures |ds| == |zs|
    ensures forall k :: 0 <= k < |zs| ==> ds[k] == Settle(zs[..k + 1]).display
  {
    if zs == [] then []
    else
      var init := zs[..|zs| - 1];
      assert forall k :: 0 <= k < |init| ==>
        init[..k + 1] == zs[..k + 1] && Displays(init)[k] == Settle(zs[..k + 1]).display;
      assert zs[..|zs|] == zs;
      Displays(init) + [Settle(zs).display]
  }

  /** Length of the run of zones equal to the last one at the end of `zs`. */
  function TrailingRun(zs: seq<Zone>): nat {
    if zs == [] then 0
    else if |zs| >= 2 && zs[|zs| - 2] == zs[|zs| - 1] then TrailingRun(zs[..|zs| - 1]) + 1
    else 1
  }

  /** The last `n` zones all equal the last one. */
  predicate EndsWithRun(zs: seq<Zone>, n: nat) {
    n <= |zs| && forall k :: |zs| - n <= k < |zs| ==> zs[k] == zs[|zs| - 1]
  }

  lemma {:induction false} TrailingRunIsRun(zs: seq<Zone>, n: nat)
    requires n <= TrailingRun(zs)
    ensures EndsWithRun(zs, n)
  {
    if n > 1 {
      var init := zs[..|zs| - 1];
      TrailingRunIsRun(init, n - 1);
    }
  }

  lemma {:induction false} RunIsTrailingRun(zs: seq<Zone>, n: nat)
    requires EndsWithRun(zs, n)
    ensures n <= TrailingRun(zs)
  {
    if n > 1 {
      var init := zs[..|zs| - 1];
      assert zs[|zs| - 2] == zs[|zs| - 1];
      RunIsTrailingRun(init, n - 1);
    }
  }

  /**
   * After a non-empty run of frames, the latest zone is the last computed one and
   * the counter is exactly the length of its trailing run.
   */
  lemma {:induction false} SettleCountsRun(zs: seq<Zone>)
    requires |zs| > 0
    ensures Settle(zs).prev == zs[|zs| - 1]
    ensures Settle(zs).count == TrailingRun(zs)
  {
    var init := zs[..|zs| - 1];
    if |init| > 0 {
      SettleCountsRun(init);
    }
  }

  /** Three equal computed zones in a row always put that zone on display. */
  lemma CommitAfterRun(zs: seq<Zone>)
    requires EndsWithRun(zs, StableFrames)
    ensures Settle(zs).display == zs[|zs| - 1]
  {
    RunIsTrailingRun(zs, StableFrames);
    SettleCountsRun(zs);
  }

  /**
   * The display changes on a frame only when that frame ends a run of three
   * equal computed zones, and then it shows that zone.
   */
  lemma ChangeNeedsRun(zs: seq<Zone>)
    requires |zs| > 0
    requires Settle(zs).display != Settle(zs[..|zs| - 1]).display
    ensures EndsWithRun(zs, StableFrames)
    ensures Settle(zs).display == zs[|zs| - 1]
  {
    SettleCountsRun(zs);
    TrailingRunIsRun(zs, StableFrames);
  }

  /** `n` copies of the zone `z`. */
  function Repeat(z: Zone, n: nat): (s: seq<Zone>)
    ensures |s| == n
  {
    if n == 0 then [] else Repeat(z, n - 1) + [z]
  }

  /** Appending a zone extends the trailing run when it repeats the last zone, and restarts it otherwise. */
  lemma TrailingRunSnoc(s: seq<Zone>, z: Zone)
    ensures TrailingRun(s + [z]) == if s != [] && s[|s| - 1] == z then TrailingRun(s) + 1 else 1
  {
    var all := s + [z];
    assert all[..|all| - 1] == s;
  }

  /** Repeating a zone `r` times appends it once to the repetition of `r - 1`. */
  lemma RepeatSnoc(zs: seq<Zone>, z: Zone, r: nat)
    requires r > 0
    ensures zs + Repeat(z, r) == (zs + Repeat(z, r - 1)) + [z]
    ensures r > 1 ==> (zs + Repeat(z, r - 1))[|zs| + r - 2] == z
  {
    if r > 1 {
      assert Repeat(z, r - 1) == Repeat(z, r - 2) + [z];
    }
  }

  /** A new zone repeated `r` times ends in a run of exactly `r`. */
  lemma {:induction false} RepeatRun(zs: seq<Zone>, z: Zone, r: nat)
    requires zs == [] || zs[|zs| - 1] != z
    requires r > 0
    ensures TrailingRun(zs + Repeat(z, r)) == r
  {
    RepeatSnoc(zs, z, r);
    TrailingRunSnoc(zs + Repeat(z, r - 1), z);
    if r > 1 {
      RepeatRun(zs, z, r - 1);
    }
  }

  /**
   * A run of fewer than three frames of a new zone never changes the display.
   */
  lemma {:induction false} BlipIgnored(zs: seq<Zone>, z: Zone, r: nat)
    requires zs == [] || zs[|zs| - 1] != z
    requires r < StableFrames
    ensures Settle(zs + Repeat(z, r)).display == Settle(zs).display
  {
    if r == 0 {
      assert zs + Repeat(z, r) == zs;
    } else {
      var all := zs + Repeat(z, r);
      var shorter := zs + Repeat(z, r - 1);
      assert all[..|all| - 1] == shorter;
      BlipIgnored(zs, z, r - 1);
      RepeatRun(zs, z, r);
      SettleCountsRun(all);
    }
  }

  /** Commitment lags a change of zone by two frames. */
  lemma ExampleTrace()
    ensures Displays([Safe, Safe, Warning, Warning, Warning, Danger])
         == [Safe, Safe, Safe, Safe, Warning, Warning]
  {
    var zs := [Safe, Safe, Warning, Warning, Warning, Danger];
    var z1, z2, z3, z4, z5 := zs[..1], zs[..2], zs[..3], zs[..4], zs[..5];
    assert z1[..0] == [] && z2[..1] == z1 && z3[..2] == z2 && z4[..3] == z3 && z5[..4] == z4;
    assert zs[..6] == zs && zs[..5] == z5;
    assert Settle(z1) == Debouncer(Safe, 1, Safe);
    assert Settle(z2) == Debouncer(Safe, 2, Safe);
    assert Settle(z3) == Debouncer(Warning, 1, Safe);
    assert Settle(z4) == Debouncer(Warning, 2, Safe);
    assert Settle(z5) == Debouncer(Warning, 3, Warning);
    assert Settle(zs) == Debouncer(Danger, 1, Warning);
  }
}
