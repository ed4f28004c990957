/** Strikes of validators: a window of results per validator, newest first, and the dictionary that stores it. */
module Strikes {
  import opened Wrappers

  const SENTINEL: nat := 0

  /** `data[:maxlen]` padded with sentinels. */
  function Resized(data: seq<nat>, maxlen: nat): seq<nat> {
    if |data| >= maxlen then data[..maxlen] else data + seq(maxlen - |data|, _ => SENTINEL)
  }

  class StrikesList {
    var data: seq<nat>

    constructor (data: seq<nat>)
      ensures this.data == data
    {
      this.data := data;
    }

    method Resize(maxlen: nat)
      modifies this
      ensures |data| == maxlen
      ensures forall d :: 0 <= d < maxlen ==> data[d] == if d < |old(data)| then old(data)[d] else SENTINEL
    {
      data := Resized(data, maxlen);
    }

    method Push(item: nat)
      modifies this
      ensures |data| == |old(data)| + 1 && data[0] == item
      ensures forall d :: 0 <= d < |old(data)| ==> data[d + 1] == old(data)[d]
    {
      data := [item] + data;
    }
  }

  datatype StrikesValidator = StrikesValidator(noId: nat, pubkey: nat)

  type Stored = map<StrikesValidator, seq<nat>>

  /** Strikes of one frame, for the validators that have any. */
  type InFrame = map<StrikesValidator, nat>

  function StrikeOf(strikes: InFrame, key: StrikesValidator): nat {
    if key in strikes then strikes[key] else SENTINEL
  }

  /** The result of `d` frames ago; no list is a list of zeros. */
  function At(acc: Stored, key: StrikesValidator, d: nat): nat {
    if key in acc && d < |acc[key]| then acc[key][d] else SENTINEL
  }

  function Sum(xs: seq<nat>): nat {
    if xs == [] then 0 else xs[0] + Sum(xs[1..])
  }

  lemma {:induction false} SumIsZero(xs: seq<nat>)
    ensures Sum(xs) == 0 <==> forall d :: 0 <= d < |xs| ==> xs[d] == 0
  {
    if xs != [] {
      SumIsZero(xs[1..]);
      if forall d :: 0 <= d < |xs[1..]| ==> xs[1..][d] == 0 {
        forall d | 0 < d < |xs| ensures xs[d] == 0 { assert xs[d] == xs[1..][d - 1]; }
      } else {
        var d :| 0 <= d < |xs[1..]| && xs[1..][d] != 0;
        assert xs[d + 1] != 0;
      }
    }
  }

  /** What one frame does to a validator's window: everything moves back one place, up to the lifetime. */
  ghost predicate Shifted(acc: Stored, strikes: InFrame, lifetime: nat, acc': Stored, key: StrikesValidator) {
    && (forall d: nat :: At(acc', key, d) ==
          if d >= lifetime then SENTINEL else if d == 0 then StrikeOf(strikes, key) else At(acc, key, d - 1))
    && (key in acc' ==> |acc'[key]| == lifetime)
    && (key in acc' <==> exists d: nat :: At(acc', key, d) != 0)
  }

  function History(acc: Stored, key: StrikesValidator): seq<nat> {
    if key in acc then acc[key] else []
  }

  /** `list` is the validator's new window. */
  ghost predicate IsWindow(acc: Stored, strikes: InFrame, lifetime: nat, key: StrikesValidator, list: seq<nat>) {
    && |list| == lifetime
    && forall d :: 0 <= d < lifetime ==>
      list[d] == if d == 0 then StrikeOf(strikes, key) else At(acc, key, d - 1)
  }

  lemma {:induction false} WindowStored(
      acc: Stored, strikes: InFrame, lifetime: nat, key: StrikesValidator, list: seq<nat>, acc': Stored)
    requires IsWindow(acc, strikes, lifetime, key, list)
    requires if Sum(list) == 0 then key !in acc' else key in acc' && acc'[key] == list
    ensures Shifted(acc, strikes, lifetime, acc', key)
  {
    SumIsZero(list);
    forall d: nat ensures At(acc', key, d) ==
      if d >= lifetime then SENTINEL else if d == 0 then StrikeOf(strikes, key) else At(acc, key, d - 1)
    {
      if d < lifetime { assert key in acc' || list[d] == 0; }
    }
    if key in acc' {
      var d :| 0 <= d < |list| && list[d] != 0;
      assert At(acc', key, d) != 0;
    }
  }

  lemma {:induction false} NeverStruck(
      acc: Stored, strikes: InFrame, lifetime: nat, key: StrikesValidator, acc': Stored)
    requires key !in acc && key !in strikes && key !in acc'
    ensures Shifted(acc, strikes, lifetime, acc', key)
  {
  }

  lemma {:induction false} ShiftedElsewhere(
      acc: Stored, strikes: InFrame, lifetime: nat, key: StrikesValidator, a: Stored, b: Stored)
    requires Shifted(acc, strikes, lifetime, a, key)
    requires key in a <==> key in b
    requires key in a ==> a[key] == b[key]
    ensures Shifted(acc, strikes, lifetime, b, key)
  {
    forall d: nat ensures At(a, key, d) == At(b, key, d) {}
  }

  lemma {:induction false} ResizedIsWindow(
      acc: Stored, strikes: InFrame, lifetime: nat, key: StrikesValidator, longer: seq<nat>, list: seq<nat>)
    requires |longer| == |History(acc, key)| + 1 && longer[1..] == History(acc, key)
    requires longer[0] == if key in strikes then strikes[key] else SENTINEL
    requires |list| == lifetime
    requires forall d :: 0 <= d < lifetime ==> list[d] == if d < |longer| then longer[d] else SENTINEL
    ensures IsWindow(acc, strikes, lifetime, key, list)
  {
    forall d | 0 < d < lifetime ensures list[d] == At(acc, key, d - 1) {
      if d < |longer| { assert longer[d] == longer[1..][d - 1]; }
    }
  }

  lemma {:induction false} HistoryOf(acc: Stored, key: StrikesValidator)
    ensures History(acc, key) == if key in acc then acc[key] else []
  {
  }

  /** The first loop: every struck validator's list gets its strikes. */
  method PushStrikes(acc: Stored, strikesInFrame: InFrame) returns (merged: Stored)
    ensures forall key :: key in merged <==> key in acc || key in strikesInFrame
    ensures forall key :: key in strikesInFrame ==> merged[key] == [strikesInFrame[key]] + History(acc, key)
    ensures forall key :: key in acc && key !in strikesInFrame ==> merged[key] == acc[key]
  {
    merged := acc;
    var struck := strikesInFrame.Keys;
    while struck != {}
      invariant struck <= strikesInFrame.Keys
      invariant forall key :: key in merged <==> key in acc || (key in strikesInFrame && key !in struck)
      invariant forall key :: key in strikesInFrame && key !in struck ==>
        merged[key] == [strikesInFrame[key]] + History(acc, key)
      invariant forall key :: key in acc && (key !in strikesInFrame || key in struck) ==> merged[key] == acc[key]
      decreases |struck|
    {
      var key :| key in struck;
      var list := new StrikesList(if key in merged then merged[key] else []);
      list.Push(strikesInFrame[key]);
      assert list.data == [strikesInFrame[key]] + History(acc, key);
      merged := merged[key := list.data];
      struck := struck - {key};
    }
  }

  method ProcessStrikes(acc: Stored, strikesInFrame: InFrame, lifetime: nat -> nat) returns (merged: Stored)
    ensures forall key: StrikesValidator :: Shifted(acc, strikesInFrame, lifetime(key.noId), merged, key)
  {
    hide Sum, Shifted, IsWindow, At, StrikeOf, History;
    merged := PushStrikes(acc, strikesInFrame);
    ghost var pushed := merged;
    forall key: StrikesValidator | key !in pushed
      ensures Shifted(acc, strikesInFrame, lifetime(key.noId), merged, key)
    {
      NeverStruck(acc, strikesInFrame, lifetime(key.noId), key, merged);
    }
    var keys := merged.Keys;
    while keys != {}
      invariant keys <= pushed.Keys
      invariant forall key :: key in keys ==> key in merged && merged[key] == pushed[key]
      invariant forall key: StrikesValidator :: key !in keys ==>
        Shifted(acc, strikesInFrame, lifetime(key.noId), merged, key)
      decreases |keys|
    {
      var key :| key in keys;
      keys := keys - {key};
      var list := new StrikesList(merged[key]);
      if key !in strikesInFrame {
        list.Push(SENTINEL);
      }
      HistoryOf(acc, key);
      var maxlen := lifetime(key.noId);
      ghost var longer := list.data;
      list.Resize(maxlen);
      ResizedIsWindow(acc, strikesInFrame, maxlen, key, longer, list.data);
      ghost var before := merged;
      if Sum(list.data) == 0 {
        merged := merged - {key};
      } else {
        merged := merged[key := list.data];
      }
      WindowStored(acc, strikesInFrame, maxlen, key, list.data, merged);
      forall other: StrikesValidator | other !in keys && other != key
        ensures Shifted(acc, strikesInFrame, lifetime(other.noId), merged, other)
      {
        ShiftedElsewhere(acc, strikesInFrame, lifetime(other.noId), other, before, merged);
      }
    }
  }

  // ----- Runs of frames -----

  datatype StrikeFrame = StrikeFrame(strikes: InFrame, lifetime: nat -> nat)

  /** The stored windows before the first frame and after each one. */
  ghost predicate IsRun(frames: seq<StrikeFrame>, accs: seq<Stored>) {
    && |accs| == |frames| + 1
    && forall k, key: StrikesValidator :: 0 <= k < |frames| ==>
      Shifted(accs[k], frames[k].strikes, frames[k].lifetime(key.noId), accs[k + 1], key)
  }

  /** What was known `d` frames before the end of the first `n` frames: a frame's result, or the initial list's. */
  ghost function ResultAt(frames: seq<StrikeFrame>, initial: Stored, n: nat, key: StrikesValidator, d: nat): nat
    requires n <= |frames|
  {
    if d < n then StrikeOf(frames[n - 1 - d].strikes, key) else At(initial, key, d - n)
  }

  /** It was inside the window of every frame it went through. */
  ghost predicate Survives(frames: seq<StrikeFrame>, n: nat, key: StrikesValidator, d: nat)
    requires n <= |frames|
  {
    forall j :: 0 <= j < n && n - 1 - d <= j ==> j - (n - 1 - d) < frames[j].lifetime(key.noId)
  }

  /** After any frames, with any lifetimes, a window holds exactly the results that were never too old. */
  lemma {:induction false} WindowAfterFrames(
      frames: seq<StrikeFrame>, accs: seq<Stored>, n: nat, key: StrikesValidator, d: nat)
    requires IsRun(frames, accs) && n <= |frames|
    ensures At(accs[n], key, d) ==
      if Survives(frames, n, key, d) then ResultAt(frames, accs[0], n, key, d) else SENTINEL
    decreases n
  {
    if n > 0 {
      assert Shifted(accs[n - 1], frames[n - 1].strikes, frames[n - 1].lifetime(key.noId), accs[n - 1 + 1], key);
      if d > 0 {
        WindowAfterFrames(frames, accs, n - 1, key, d - 1);
      }
    }
  }

  ghost predicate FixedLifetime(frames: seq<StrikeFrame>, key: StrikesValidator, lifetime: nat) {
    forall k :: 0 <= k < |frames| ==> frames[k].lifetime(key.noId) == lifetime
  }

  /** With a fixed lifetime the window is the last `lifetime` results; it is stored unless they are all zero. */
  lemma {:induction false} WindowLosesNothing(
      frames: seq<StrikeFrame>, accs: seq<Stored>, key: StrikesValidator, lifetime: nat)
    requires IsRun(frames, accs) && |frames| > 0 && FixedLifetime(frames, key, lifetime)
    ensures key in accs[|frames|] <==>
      exists d: nat :: d < lifetime && ResultAt(frames, accs[0], |frames|, key, d) != 0
    ensures key in accs[|frames|] ==> (accs[|frames|][key] ==
      seq(lifetime, d requires 0 <= d < lifetime => ResultAt(frames, accs[0], |frames|, key, d)))
  {
    hide At, StrikeOf;
    var n := |frames|;
    assert Shifted(accs[n - 1], frames[n - 1].strikes, frames[n - 1].lifetime(key.noId), accs[n - 1 + 1], key);
    forall d: nat
      ensures At(accs[n], key, d) == if d < lifetime then ResultAt(frames, accs[0], n, key, d) else SENTINEL
    {
      WindowAfterFrames(frames, accs, n, key, d);
    }
    WindowIsList(accs[n], key, lifetime);
  }

  lemma {:induction false} WindowIsList(acc: Stored, key: StrikesValidator, lifetime: nat)
    requires key in acc ==> |acc[key]| == lifetime
    ensures key in acc ==> acc[key] == seq(lifetime, d requires 0 <= d < lifetime => At(acc, key, d))
  {
  }

  /** A lifetime that shrinks for a frame does lose a strike that later windows would show. */
  lemma {:induction false} ShrinkingLifetimeForgets(accs: seq<Stored>)
    requires var key := StrikesValidator(1, 7);
      IsRun([StrikeFrame(map[key := 1], _ => 2), StrikeFrame(map[], _ => 1), StrikeFrame(map[], _ => 3)], accs)
    requires accs[0] == map[]
    ensures var key := StrikesValidator(1, 7);
      StrikeOf(map[key := 1], key) == 1 && key !in accs[3]
  {
    var key := StrikesValidator(1, 7);
    var frames := [StrikeFrame(map[key := 1], _ => 2), StrikeFrame(map[], _ => 1), StrikeFrame(map[], _ => 3)];
    assert Shifted(accs[2], frames[2].strikes, frames[2].lifetime(key.noId), accs[2 + 1], key);
    forall d: nat ensures At(accs[3], key, d) == 0 {
      WindowAfterFrames(frames, accs, 3, key, d);
      if d == 2 { assert !(1 - (3 - 1 - 2) < frames[1].lifetime(key.noId)); }
    }
  }
}
