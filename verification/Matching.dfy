/** The key ring and the choice of a hotstring (src/RingBuffer.cpp:7-30, src/Daemon.cpp:345-427). */
module Matching {
  import opened Wrappers
  import opened Keys
  import Macro

  /** A loaded hotstring: the modifiers it asks for and the job it stands for. */
  datatype Hotstring = Hotstring(modifiers: seq<int>, job: Macro.Job) {
    function Trigger(): seq<int> { job.triggerKeys }
  }

  // ---- the ring ------------------------------------------------------------------------

  /** The last `n` keys of a history. */
  function LastKeys(history: seq<int>, n: nat): seq<int> {
    if |history| <= n then history else history[|history| - n..]
  }

  function Push(keys: seq<int>, capacity: nat, code: int): seq<int> {
    (if |keys| == capacity && keys != [] then keys[1..] else keys) + [code]
  }

  predicate EndsWith(keys: seq<int>, trigger: seq<int>) {
    |trigger| <= |keys| && keys[|keys| - |trigger|..] == trigger
  }

  /** Pushing keeps the ring equal to the end of the history. */
  lemma PushKeepsLast(history: seq<int>, capacity: nat, code: int)
    requires capacity > 0
    ensures Push(LastKeys(history, capacity), capacity, code) == LastKeys(history + [code], capacity)
  {
  }

  /** On the ring and on the whole history a trigger that fits in the ring ends alike. */
  lemma EndsWithLast(history: seq<int>, capacity: nat, trigger: seq<int>)
    requires |trigger| <= capacity
    ensures EndsWith(LastKeys(history, capacity), trigger) <==> EndsWith(history, trigger)
  {
    var keys := LastKeys(history, capacity);
    if |trigger| <= |keys| {
      assert keys[|keys| - |trigger|..] == history[|history| - |trigger|..];
    }
  }

  lemma EndsWithMeaning(keys: seq<int>, trigger: seq<int>)
    ensures EndsWith(keys, trigger) <==> exists earlier :: keys == earlier + trigger
  {
    if EndsWith(keys, trigger) {
      assert keys == keys[..|keys| - |trigger|] + trigger;
    }
  }

  class RingBuffer {
    const capacity: nat
    var keys: seq<int>

    constructor (capacity: nat)
      ensures this.capacity == capacity && keys == []
    {
      this.capacity, keys := capacity, [];
    }

    method PushKey(code: int)
      requires capacity > 0
      modifies this`keys
      ensures keys == Push(old(keys), capacity, code)
    {
      if |keys| == capacity {
        keys := keys[1..];
      }
      keys := keys + [code];
    }

    method EndsWithSequence(trigger: seq<int>) returns (r: bool)
      ensures r == EndsWith(keys, trigger)
    {
      if |trigger| > |keys| {
        return false;
      }
      var offset := |keys| - |trigger|;
      for i := 0 to |trigger|
        invariant forall k :: 0 <= k < i ==> keys[offset + k] == trigger[k]
      {
        if keys[offset + i] != trigger[i] {
          assert keys[offset..][i] != trigger[i];
          return false;
        }
      }
      r := true;
    }

    method Clear()
      modifies this`keys
      ensures keys == []
    {
      keys := [];
    }
  }

  // ---- modifiers -----------------------------------------------------------------------

  /** The same modifier on the other side of the keyboard. */
  function Counterpart(code: int): int {
    if code == KEY_LEFTCTRL then KEY_RIGHTCTRL
    else if code == KEY_RIGHTCTRL then KEY_LEFTCTRL
    else if code == KEY_LEFTALT then KEY_RIGHTALT
    else if code == KEY_RIGHTALT then KEY_LEFTALT
    else if code == KEY_LEFTSHIFT then KEY_RIGHTSHIFT
    else if code == KEY_RIGHTSHIFT then KEY_LEFTSHIFT
    else if code == KEY_LEFTMETA then KEY_RIGHTMETA
    else if code == KEY_RIGHTMETA then KEY_LEFTMETA
    else code
  }

  predicate IsModifier(code: int) { Counterpart(code) != code }

  /** The modifier keys are Control (29, 97), Alt (56, 100), Shift (42, 54) and Meta (125, 126), left and
      right; each pair belongs together, and no other key is a modifier. */
  lemma ModifierPairs(code: int)
    ensures IsModifier(code) <==> code in {29, 97, 56, 100, 42, 54, 125, 126}
    ensures code in {29, 97} ==> Counterpart(code) == 126 - code
    ensures code in {56, 100} ==> Counterpart(code) == 156 - code
    ensures code in {42, 54} ==> Counterpart(code) == 96 - code
    ensures code in {125, 126} ==> Counterpart(code) == 251 - code
    ensures !IsModifier(code) ==> Counterpart(code) == code
  {
  }

  predicate ModifierHeld(pressed: set<int>, code: int) { code in pressed || Counterpart(code) in pressed }

  /** It does not matter which side is asked for. */
  lemma SidesAreEqual(pressed: set<int>, code: int)
    ensures ModifierHeld(pressed, code) == ModifierHeld(pressed, Counterpart(code))
  {
  }

  // ---- the choice ------------------------------------------------------------------------

  predicate Matches(h: Hotstring, keys: seq<int>, pressed: set<int>) {
    EndsWith(keys, h.Trigger()) && forall i :: 0 <= i < |h.modifiers| ==> ModifierHeld(pressed, h.modifiers[i])
  }

  /** The one that is chosen: it matches, nothing that matches is longer, and nothing as long stands
      earlier in the list. */
  ghost predicate IsBest(hs: seq<Hotstring>, keys: seq<int>, pressed: set<int>, i: nat) {
    && i < |hs| && Matches(hs[i], keys, pressed)
    && forall j :: 0 <= j < |hs| && Matches(hs[j], keys, pressed) ==>
                     |hs[j].Trigger()| < |hs[i].Trigger()| || (|hs[j].Trigger()| == |hs[i].Trigger()| && i <= j)
  }

  ghost predicate NoneMatches(hs: seq<Hotstring>, keys: seq<int>, pressed: set<int>) {
    forall j :: 0 <= j < |hs| ==> !Matches(hs[j], keys, pressed)
  }

  /** The fold of the source: a later match replaces the best so far only when it is longer. */
  function BestOf(hs: seq<Hotstring>, keys: seq<int>, pressed: set<int>): (r: Option<nat>)
    ensures r.Some? ==> r.value < |hs|
  {
    if hs == [] then None
    else
      var n := |hs| - 1;
      var before := BestOf(hs[..n], keys, pressed);
      if Matches(hs[n], keys, pressed)
         && (before.None? || |hs[n].Trigger()| > |hs[before.value].Trigger()|)
      then Some(n) else before
  }

  /** The fold finds the best match, exactly when there is one. */
  lemma {:induction false} BestOfIsBest(hs: seq<Hotstring>, keys: seq<int>, pressed: set<int>)
    ensures var r := BestOf(hs, keys, pressed);
            if r.Some? then IsBest(hs, keys, pressed, r.value) else NoneMatches(hs, keys, pressed)
  {
    if hs != [] {
      hide Matches;
      var n := |hs| - 1;
      BestOfIsBest(hs[..n], keys, pressed);
      assert forall j :: 0 <= j < n ==> hs[..n][j] == hs[j];
    }
  }

  lemma BestIsUnique(hs: seq<Hotstring>, keys: seq<int>, pressed: set<int>, i: nat)
    requires IsBest(hs, keys, pressed, i)
    ensures BestOf(hs, keys, pressed) == Some(i)
  {
    hide Matches;
    BestOfIsBest(hs, keys, pressed);
    var r := BestOf(hs, keys, pressed);
    assert Matches(hs[i], keys, pressed);
    assert r.Some?;
    assert Matches(hs[r.value], keys, pressed);
  }

  ghost predicate Fits(hs: seq<Hotstring>, capacity: nat) {
    forall i :: 0 <= i < |hs| ==> |hs[i].Trigger()| <= capacity
  }

  /** On the bounded ring the same hotstring is chosen as on the whole history. */
  lemma {:induction false} BestOnRing(hs: seq<Hotstring>, history: seq<int>, capacity: nat, pressed: set<int>)
    requires Fits(hs, capacity)
    ensures BestOf(hs, LastKeys(history, capacity), pressed) == BestOf(hs, history, pressed)
  {
    if hs != [] {
      hide LastKeys, EndsWith;
      var n := |hs| - 1;
      assert forall i :: 0 <= i < n ==> hs[..n][i] == hs[i];
      BestOnRing(hs[..n], history, capacity, pressed);
      EndsWithLast(history, capacity, hs[n].Trigger());
    }
  }

  // ---- capacity ------------------------------------------------------------------------------

  function LongestTrigger(hs: seq<Hotstring>): nat {
    if hs == [] then 16
    else
      var m := LongestTrigger(hs[..|hs| - 1]);
      if m < |hs[|hs| - 1].Trigger()| then |hs[|hs| - 1].Trigger()| else m
  }

  function RingCapacity(hs: seq<Hotstring>): nat { LongestTrigger(hs) + 8 }

  lemma {:induction false} CapacityFits(hs: seq<Hotstring>)
    ensures Fits(hs, LongestTrigger(hs)) && LongestTrigger(hs) >= 16
    ensures Fits(hs, RingCapacity(hs)) && RingCapacity(hs) >= 24
  {
    if hs != [] {
      var n := |hs| - 1;
      CapacityFits(hs[..n]);
      assert forall i :: 0 <= i < n ==> hs[..n][i] == hs[i];
    }
  }

  method ComputeRingCapacity(hs: seq<Hotstring>) returns (capacity: nat)
    ensures capacity == RingCapacity(hs)
  {
    var maxTrigger := 16;
    for i := 0 to |hs|
      invariant maxTrigger == LongestTrigger(hs[..i])
    {
      assert hs[..i + 1][..i] == hs[..i];
      if maxTrigger < |hs[i].Trigger()| {
        maxTrigger := |hs[i].Trigger()|;
      }
    }
    assert hs[..|hs|] == hs;
    capacity := maxTrigger + 8;
  }

  /** `find_match`: the loops over hotstrings and required modifiers. */
  method FindMatch(hs: seq<Hotstring>, ring: RingBuffer, pressed: set<int>) returns (best: Option<nat>)
    ensures best == BestOf(hs, ring.keys, pressed)
  {
    hide EndsWith;
    best := None;
    for i := 0 to |hs|
      invariant best == BestOf(hs[..i], ring.keys, pressed)
    {
      assert hs[..i + 1][..i] == hs[..i];
      assert best.Some? ==> hs[..i][best.value] == hs[best.value];
      var ends := ring.EndsWithSequence(hs[i].Trigger());
      if !ends {
        continue;
      }
      var modifiersMatch := true;
      var k := 0;
      while k < |hs[i].modifiers|
        invariant 0 <= k <= |hs[i].modifiers| && modifiersMatch
        invariant forall j :: 0 <= j < k ==> ModifierHeld(pressed, hs[i].modifiers[j])
      {
        var found := ModifierHeld(pressed, hs[i].modifiers[k]);
        if !found {
          modifiersMatch := false;
          break;
        }
        k := k + 1;
      }
      if !modifiersMatch {
        continue;
      }
      if best.None? || |hs[i].Trigger()| > |hs[best.value].Trigger()| {
        best := Some(i);
      }
    }
    assert hs[..|hs|] == hs;
  }
}
