/** The additive lagged generator with switchable state arrays (lib/libc/random.c). */
module Random {
  const TWO31 := 0x8000_0000
  const TWO32 := 0x1_0000_0000
  const MAX_TYPES := 5

  function Deg(t: nat): nat
    requires t < MAX_TYPES
  {
    [0, 7, 15, 31, 63][t]
  }

  function Sep(t: nat): nat
    requires t < MAX_TYPES
  {
    [0, 3, 1, 3, 1][t]
  }

  /** The place k steps on from f in a cycle of deg. */
  function Around(f: nat, k: nat, deg: nat): nat
  {
    if f + k < deg then f + k else if f + k < 2 * deg then f + k - deg else 0
  }

  lemma TypeFacts(t: nat)
    requires 0 < t < MAX_TYPES
    ensures 0 < Sep(t) < Deg(t)
  {
  }

  // ----- the recurrence -----

  /** x holds the last |x| values, oldest first; the next is the sum of the oldest and the one sep back. */
  function NextValue(x: seq<nat>, sep: nat): nat
    requires 0 < sep <= |x|
  {
    (x[0] + x[|x| - sep]) % TWO32
  }

  lemma NextIs(x: seq<nat>, sep: nat, a: nat, b: nat)
    requires 0 < sep <= |x| && x[0] == a && x[|x| - sep] == b
    ensures NextValue(x, sep) == (a + b) % TWO32 < TWO32
  {
  }

  function Shift(x: seq<nat>, sep: nat): (y: seq<nat>)
    requires 0 < sep <= |x|
    ensures |y| == |x|
  {
    x[1..] + [NextValue(x, sep)]
  }

  /** The values after n steps. */
  function Run(x: seq<nat>, sep: nat, n: nat): (y: seq<nat>)
    requires 0 < sep <= |x|
    ensures |y| == |x|
    decreases n
  {
    if n == 0 then x else Shift(Run(x, sep, n - 1), sep)
  }

  /** The last places of the window after n steps hold the values of the last steps. */
  lemma {:induction false} Remembered(x: seq<nat>, sep: nat, n: nat, j: nat)
    requires 0 < sep <= |x| && j < |x| && j < n
    ensures Run(x, sep, n)[|x| - 1 - j] == NextValue(Run(x, sep, n - 1 - j), sep)
    decreases j
  {
    if j > 0 {
      Remembered(x, sep, n - 1, j - 1);
    }
  }

  /** Every value of a run is the sum of those deg and sep before it, modulo 2^32, once there are as many. */
  lemma Lagged(x: seq<nat>, sep: nat, n: nat)
    requires 0 < sep <= |x| <= n
    ensures NextValue(Run(x, sep, n), sep)
            == (NextValue(Run(x, sep, n - |x|), sep) + NextValue(Run(x, sep, n - sep), sep)) % TWO32
  {
    Remembered(x, sep, n, |x| - 1);
    Remembered(x, sep, n, sep - 1);
  }

  // ----- generators -----

  /** The table read from the front pointer on, round its end: the last values, oldest first. */
  ghost function View(words: seq<nat>, f: nat, deg: nat): (x: seq<nat>)
    requires f < deg < |words|
    ensures |x| == deg && forall k :: 0 <= k < deg ==> x[k] == words[1 + Around(f, k, deg)]
  {
    seq(deg, k requires 0 <= k < deg => words[1 + Around(f, k, deg)])
  }

  lemma ViewStep(words: seq<nat>, f: nat, deg: nat, v: nat)
    requires f < deg < |words|
    ensures Around(f, 1, deg) < deg
    ensures View(words[1 + f := v], Around(f, 1, deg), deg) == View(words, f, deg)[1..] + [v]
  {
    var x, y := View(words, f, deg), View(words[1 + f := v], Around(f, 1, deg), deg);
    forall k | 0 <= k < deg
      ensures y[k] == (x[1..] + [v])[k]
    {
    }
  }

  /** Both pointers advance round the table, the front one staying sep ahead. */
  lemma PointersStep(r: nat, sep: nat, deg: nat)
    requires r < deg && 0 < sep < deg
    ensures var f := Around(r, sep, deg);
            && f < deg && f != r && Around(f, 1, deg) == Around(Around(r, 1, deg), sep, deg) && Around(r, 1, deg) < deg
            && Around(f, deg - sep, deg) == r
            && Around(f, 1, deg) == (if f + 1 >= deg then 0 else f + 1)
            && Around(r, 1, deg) == (if f + 1 >= deg || r + 1 < deg then r + 1 else 0)
  {
  }

  /** A state array: word 0 holds the type and the place of the rear pointer, the rest the table. */
  class Random {
    var state: array<nat>
    var fptr: nat
    var rptr: nat
    var randType: nat

    /** The table has room, its words are 32 bits, and the front pointer is sep places ahead of the rear one. */
    ghost predicate Valid()
      reads this, state
    {
      && randType < MAX_TYPES && state.Length >= Deg(randType) + 1 && state.Length >= 2
      && (forall i :: 0 <= i < state.Length ==> state[i] < TWO32)
      && (randType != 0 ==> rptr < Deg(randType) && fptr == Around(rptr, Sep(randType), Deg(randType)))
    }

    /** The last values of the sequence, oldest first. */
    ghost function Window(): (x: seq<nat>)
      requires Valid() && randType != 0
      reads this, state
      ensures |x| == Deg(randType)
    {
      View(state[..], fptr, Deg(randType))
    }

    constructor (table: array<nat>)
      requires table.Length == 32 && table[0] == 3 && forall i :: 0 <= i < 32 ==> table[i] < TWO32
      ensures Valid() && state == table && randType == 3 && rptr == 0 && fptr == 3
    {
      state, fptr, rptr, randType := table, 3, 0, 3;
    }

    /** The table step of random_unlocked. */
    method Lag() returns (i: nat)
      requires Valid() && randType != 0
      modifies this`fptr, this`rptr, state
      ensures Valid() && state[0] == old(state[0])
      ensures Window() == Shift(old(Window()), Sep(randType)) && i == NextValue(old(Window()), Sep(randType)) / 2
      ensures rptr == Around(old(rptr), 1, Deg(randType))
      ensures forall k :: Deg(randType) < k < state.Length ==> state[k] == old(state[k])
    {
      hide Deg, Sep, Around, View, NextValue;
      TypeFacts(randType);
      ghost var deg, sep, x, words := Deg(randType), Sep(randType), Window(), state[..];
      PointersStep(rptr, sep, deg);
      FrontValue(fptr, deg);
      var f, r := fptr, rptr;
      assert x[0] == state[1 + f] && x[deg - sep] == state[1 + r];
      ghost var v := NextValue(x, sep);
      NextIs(x, sep, state[1 + f], state[1 + r]);
      ViewStep(words, f, deg, v);
      state[1 + f] := (state[1 + f] + state[1 + r]) % TWO32;
      assert state[..] == words[1 + f := v];
      i := state[1 + f] / 2;
      f := f + 1;
      if f >= Deg(randType) {
        f := 0;
        r := r + 1;
      } else {
        r := r + 1;
        if r >= Deg(randType) {
          r := 0;
        }
      }
      fptr, rptr := f, r;
    }

    /** random_unlocked. */
    method RandomUnlocked() returns (i: nat)
      requires Valid()
      modifies this`fptr, this`rptr, state
      ensures Valid() && state[0] == old(state[0]) && i < TWO31
      ensures randType == 0 ==> i == (old(state[1]) * 1103515245 + 12345) % TWO31 && state[1] == i
      ensures randType != 0 ==>
                Window() == Shift(old(Window()), Sep(randType)) && i == NextValue(old(Window()), Sep(randType)) / 2
      ensures randType != 0 ==> rptr == Around(old(rptr), 1, Deg(randType))
      ensures forall k :: Deg(randType) < k < state.Length && k > 1 ==> state[k] == old(state[k])
    {
      if randType == 0 {
        i := (state[1] * 1103515245 + 12345) % TWO31;
        state[1] := i;
      } else {
        i := Lag();
      }
    }

    method DrawCongruent(n: nat) returns (out: seq<nat>)
      requires Valid() && randType == 0
      modifies this`fptr, this`rptr, state
      ensures Valid() && state[0] == old(state[0]) && |out| == n && state[1] == Congruent(old(state[1]), n)
      ensures forall i :: 0 <= i < n ==> out[i] == Congruent(old(state[1]), i + 1)
    {
      hide Deg, Sep, Around;
      out := [];
      for i := 0 to n
        invariant Valid() && state[0] == old(state[0]) && |out| == i && state[1] == Congruent(old(state[1]), i)
        invariant forall k :: 0 <= k < i ==> out[k] == Congruent(old(state[1]), k + 1)
      {
        var r := RandomUnlocked();
        out := out + [r];
      }
    }

    method DrawLagged(n: nat) returns (out: seq<nat>)
      requires Valid() && randType != 0
      modifies this`fptr, this`rptr, state
      ensures Valid() && state[0] == old(state[0]) && |out| == n && 0 < Sep(randType) <= Deg(randType)
      ensures Window() == Run(old(Window()), Sep(randType), n) && rptr == (old(rptr) + n) % Deg(randType)
      ensures forall i :: 0 <= i < n ==>
                out[i] == NextValue(Run(old(Window()), Sep(randType), i), Sep(randType)) / 2
    {
      hide Deg, Sep, Around, Turns, Shift, Run, NextValue, View;
      out := [];
      TypeFacts(randType);
      ghost var x, q := Window(), 0;
      RunStart(x, Sep(randType));
      TurnsStart(randType, rptr);
      for i := 0 to n
        invariant Valid() && state[0] == old(state[0]) && |out| == i && Window() == Run(x, Sep(randType), i)
        invariant Turns(randType, q, rptr, old(rptr) + i)
        invariant forall k :: 0 <= k < i ==> out[k] == NextValue(Run(x, Sep(randType), k), Sep(randType)) / 2
      {
        RunStep(x, Sep(randType), i);
        q := TurnsStep(randType, q, rptr, old(rptr) + i);
        var r := RandomUnlocked();
        out := out + [r];
      }
      TurnsPlace(randType, q, rptr, old(rptr) + n);
    }

    /** Any number of draws. */
    method Draw(n: nat) returns (out: seq<nat>)
      requires Valid()
      modifies this`fptr, this`rptr, state
      ensures Valid() && state[0] == old(state[0]) && |out| == n
      ensures randType == 0 ==> state[1] == Congruent(old(state[1]), n)
      ensures randType == 0 ==> forall i :: 0 <= i < n ==> out[i] == Congruent(old(state[1]), i + 1)
      ensures randType != 0 ==> 0 < Sep(randType) <= Deg(randType)
      ensures randType != 0 ==> Window() == Run(old(Window()), Sep(randType), n)
      ensures randType != 0 ==> forall i :: 0 <= i < n ==>
                out[i] == NextValue(Run(old(Window()), Sep(randType), i), Sep(randType)) / 2
      ensures randType != 0 ==> rptr == (old(rptr) + n) % Deg(randType)
    {
      hide Deg, Sep, Around, Run, NextValue, View, Congruent;
      if randType == 0 {
        out := DrawCongruent(n);
      } else {
        out := DrawLagged(n);
      }
    }

    /** The table filling of srandom_unlocked: a linear congruential sequence from the seed. */
    method FillTable(x: nat)
      requires 0 < randType < MAX_TYPES && state.Length >= Deg(randType) + 1 && x < TWO32
      requires forall i :: 0 <= i < state.Length ==> state[i] < TWO32
      modifies state
      ensures forall i :: 0 <= i < state.Length ==> state[i] < TWO32
      ensures forall k :: 0 <= k < Deg(randType) ==> state[1 + k] == Seeded(x, k)
      ensures state[0] == old(state[0]) && forall k :: Deg(randType) < k < state.Length ==> state[k] == old(state[k])
    {
      TypeFacts(randType);
      hide Deg, Sep;
      state[1] := x;
      for i := 1 to Deg(randType)
        invariant forall k :: 0 <= k < i ==> state[1 + k] == Seeded(x, k)
        invariant forall k :: 0 <= k < state.Length ==> state[k] < TWO32
        invariant state[0] == old(state[0]) && forall k :: Deg(randType) < k < state.Length ==>
                    state[k] == old(state[k])
      {
        state[1 + i] := (1103515245 * state[i] + 12345) % TWO32;
      }
    }

    /** srandom_unlocked. The ten turns round the table bring both pointers back to where they started. */
    method SrandomUnlocked(x: nat)
      requires randType < MAX_TYPES && state.Length >= Deg(randType) + 1 && state.Length >= 2 && x < TWO32
      requires forall i :: 0 <= i < state.Length ==> state[i] < TWO32
      modifies this`fptr, this`rptr, state
      ensures Valid() && state[0] == old(state[0])
      ensures randType == 0 ==> state[1] == x
      ensures randType != 0 ==> rptr == 0 && fptr == Sep(randType)
      ensures randType != 0 ==> Window() == Run(SeedWindow(x, randType), Sep(randType), 10 * Deg(randType))
    {
      if randType == 0 {
        state[1] := x;
      } else {
        FillTable(x);
        fptr, rptr := Sep(randType), 0;
        TurnTable(SeedWindow(x, randType));
      }
    }

    /** The discarded calls at the end of srandom_unlocked. */
    method TurnTable(ghost x: seq<nat>)
      requires Valid() && randType != 0 && rptr == 0 && fptr == Sep(randType) && Window() == x
      modifies this`fptr, this`rptr, state
      ensures Valid() && state[0] == old(state[0]) && rptr == 0 && fptr == Sep(randType)
      ensures 0 < Sep(randType) <= |x| && Window() == Run(x, Sep(randType), 10 * Deg(randType))
    {
      hide Deg, Sep, Around, Turns, Run, Shift;
      TypeFacts(randType);
      ghost var q := 0;
      RunStart(x, Sep(randType));
      TurnsStart(randType, 0);
      for i := 0 to 10 * Deg(randType)
        invariant Valid() && state[0] == old(state[0]) && Turns(randType, q, rptr, i)
        invariant Window() == Run(x, Sep(randType), i)
      {
        ghost var r := rptr;
        var _ := Lag();
        RunStep(x, Sep(randType), i);
        q := TurnsStep(randType, q, r, i);
      }
      TurnsDone(randType, q, rptr);
      AtStart(Sep(randType), Deg(randType));
    }

    /** The word that lets setstate find its way back. */
    ghost predicate Suspended(a: array<nat>, t: nat, r: nat)
      reads a
    {
      a.Length > 0 && t < MAX_TYPES && a[0] == Info(t, r)
    }

    /** Saving the place in the current state array, as initstate and setstate begin. */
    method SavePlace()
      requires Valid()
      modifies state
      ensures state[0] == Info(randType, rptr) < TWO32 && forall i :: 1 <= i < state.Length ==>
                state[i] == old(state[i])
    {
      InfoFits(randType, rptr);
      state[0] := if randType == 0 then 0 else MAX_TYPES * rptr + randType;
    }

    /**
     initstate with an array that holds n bytes: the largest generator that fits
     is seeded in it. The old array is left ready for setstate.
     */
    method InitState(seed: nat, arg: array<nat>, n: nat) returns (old_: array?<nat>)
      requires Valid() && seed < TWO32 && arg.Length * 4 >= n && forall i :: 0 <= i < arg.Length ==> arg[i] < TWO32
      modifies this, state, arg
      ensures Valid() && (old_ == null <==> n < 8)
      ensures n < 8 ==> state == old(state) && randType == old(randType) && rptr == old(rptr)
      ensures n >= 8 ==>
                old_ == old(state) && state == arg && randType == TypeFor(n) && state[0] == Info(randType, rptr)
      ensures n >= 8 && randType != 0 ==>
                rptr == 0 && Window() == Run(SeedWindow(seed, randType), Sep(randType), 10 * Deg(randType))
      ensures n >= 8 && randType == 0 ==> state[1] == seed
      ensures old(state) != arg || n < 8 ==>
                && Suspended(old(state), old(randType), old(rptr))
                && forall i :: 1 <= i < old(state).Length ==> old(state)[i] == old(state[i])
    {
      SavePlace();
      if n < 8 {
        return null;
      }
      old_ := state;
      randType := TypeFor(n);
      TypeFits(n, arg.Length);
      state := arg;
      SrandomUnlocked(seed);
      InfoFits(randType, rptr);
      ghost var words, x := state[..], if randType == 0 then [] else Window();
      state[0] := if randType == 0 then 0 else MAX_TYPES * rptr + randType;
      if randType != 0 { ViewIgnoresInfo(words, state[..], fptr, Deg(randType)); }
    }

    /** An array that holds a generator: its word 0 names a type it has room for and a place in its table. */
    ghost predicate Holds(a: array<nat>)
      reads a
    {
      && a.Length >= 2 && (forall i :: 0 <= i < a.Length ==> a[i] < TWO32)
      && a.Length >= Deg(a[0] % MAX_TYPES) + 1 && (a[0] % MAX_TYPES != 0 ==> a[0] / MAX_TYPES < Deg(a[0] % MAX_TYPES))
    }

    /** setstate to an array initstate has prepared. */
    method SetState(arg: array<nat>) returns (old_: array<nat>)
      requires Valid() && Holds(arg)
      modifies this, state
      ensures Valid() && old_ == old(state) && state == arg
      ensures randType == old(arg[0]) % MAX_TYPES && (randType != 0 ==> rptr == old(arg[0]) / MAX_TYPES)
      ensures Suspended(old(state), old(randType), old(rptr))
      ensures forall i :: 1 <= i < old(state).Length ==> old(state)[i] == old(state[i])
      ensures arg != old(state) ==> arg[0] == old(arg[0])
    {
      var t, rear := arg[0] % MAX_TYPES, arg[0] / MAX_TYPES;
      SavePlace();
      old_ := state;
      randType := t;
      state := arg;
      if randType != 0 {
        TypeFacts(t);
        AroundMod(rear, Sep(t), Deg(t));
        rptr := rear;
        fptr := (rear + Sep(t)) % Deg(t);
      }
    }
  }

  /** The type and the rear pointer packed in one word. */
  function Info(t: nat, r: nat): nat
  {
    if t == 0 then 0 else MAX_TYPES * r + t
  }

  lemma InfoFits(t: nat, r: nat)
    requires t < MAX_TYPES && (t != 0 ==> r < Deg(t))
    ensures Info(t, r) < TWO32
  {
  }

  lemma InfoUnpacks(t: nat, r: nat)
    requires t < MAX_TYPES
    ensures Info(t, r) % MAX_TYPES == t && (t != 0 ==> Info(t, r) / MAX_TYPES == r)
  {
  }

  function TypeFor(n: nat): (t: nat)
    ensures t < MAX_TYPES
  {
    if n < 32 then 0 else if n < 64 then 1 else if n < 128 then 2 else if n < 256 then 3 else 4
  }

  /** An array gets the largest type whose table and word 0 fit in its bytes; the first needs 8. */
  lemma TypeLargest(n: nat)
    requires n >= 8
    ensures TypeFor(n) > 0 ==> 4 * (Deg(TypeFor(n)) + 1) <= n
    ensures forall t: nat :: 0 < t < MAX_TYPES && 4 * (Deg(t) + 1) <= n ==> t <= TypeFor(n)
    ensures TypeFor(8) == 0 && TypeFor(32) == 1 && TypeFor(64) == 2 && TypeFor(128) == 3 && TypeFor(256) == 4
  {
  }

  /** Each type's table and its word 0 fit in the bytes it asks for. */
  lemma TypeFits(n: nat, length: nat)
    requires n >= 8 && length * 4 >= n
    ensures length >= Deg(TypeFor(n)) + 1 && length >= 2
  {
  }

  lemma ViewIgnoresInfo(words: seq<nat>, words': seq<nat>, f: nat, deg: nat)
    requires f < deg < |words| && |words'| == |words| && forall i :: 1 <= i < |words| ==> words'[i] == words[i]
    ensures View(words', f, deg) == View(words, f, deg)
  {
    var x, y := View(words, f, deg), View(words', f, deg);
    assert forall k :: 0 <= k < deg ==> y[k] == x[k];
  }

  lemma AroundMod(r: nat, sep: nat, deg: nat)
    requires r < deg && 0 < sep < deg
    ensures (r + sep) % deg == Around(r, sep, deg)
  {
    if r + sep >= deg {
      assert r + sep == deg * 1 + (r + sep - deg);
    }
  }

  // ----- leaving and coming back -----

  /** Leaving with setstate, drawing any numbers elsewhere, and coming back resumes the sequence where it was left. */
  method SwitchAndBack(g: Random, b: array<nat>, draws: nat)
    requires g.Valid() && g.Holds(b) && b != g.state
    modifies g, g.state, b
    ensures g.Valid() && g.state == old(g.state) && g.randType == old(g.randType) && g.state[1..] == old(g.state[1..])
    ensures g.randType != 0 ==> g.rptr == old(g.rptr) && g.Window() == old(g.Window())
  {
    ghost var words, t, r, f := g.state[..], g.randType, g.rptr, g.fptr;
    var a := g.SetState(b);
    var _ := g.Draw(draws);
    ComeBack(g, a, words, t, r, f);
  }

  /** Leaving with initstate and coming back resumes it too. */
  method SeedAndBack(g: Random, seed: nat, b: array<nat>, n: nat, draws: nat)
    requires g.Valid() && seed < TWO32 && b.Length * 4 >= n >= 8 && b != g.state
    requires forall i :: 0 <= i < b.Length ==> b[i] < TWO32
    modifies g, g.state, b
    ensures g.Valid() && g.state == old(g.state) && g.randType == old(g.randType) && g.state[1..] == old(g.state[1..])
    ensures g.randType != 0 ==> g.rptr == old(g.rptr) && g.Window() == old(g.Window())
  {
    ghost var words, t, r, f := g.state[..], g.randType, g.rptr, g.fptr;
    var a := g.InitState(seed, b, n);
    var _ := g.Draw(draws);
    ComeBack(g, a, words, t, r, f);
  }

  /** setstate to an array that was left at these words, type and place. */
  method ComeBack(g: Random, a: array<nat>, ghost words: seq<nat>, ghost t: nat, ghost r: nat, ghost f: nat)
    requires g.Valid() && g.Suspended(a, t, r) && a != g.state && a.Length == |words| >= 2 && a.Length >= Deg(t) + 1
    requires forall i :: 0 <= i < |words| ==> words[i] < TWO32
    requires forall i :: 1 <= i < |words| ==> a[i] == words[i]
    requires t != 0 ==> r < Deg(t) && f == Around(r, Sep(t), Deg(t))
    modifies g, g.state
    ensures g.Valid() && g.state == a && g.randType == t && a[1..] == words[1..]
    ensures t != 0 ==> g.rptr == r && f < Deg(t) && g.Window() == View(words, f, Deg(t))
  {
    InfoFits(t, r);
    InfoUnpacks(t, r);
    var _ := g.SetState(a);
    assert a[1..] == words[1..];
    if t != 0 {
      TypeFacts(t);
      ViewIgnoresInfo(words, g.state[..], f, Deg(t));
    }
  }

  /**
   setstate on the array in use goes back to the place word 0 names. If that
   was the place at the start, the numbers drawn since leave it undisturbed if
   and only if they go round the table a whole number of times.
   */
  method SetStateInUse(g: Random, draws: nat) returns (ghost place: nat, ghost x: seq<nat>)
    requires g.Valid() && g.randType != 0 && g.state[0] == Info(g.randType, g.rptr)
    modifies g, g.state
    ensures g.Valid() && g.state == old(g.state) && g.randType == old(g.randType)
            && 0 < Sep(g.randType) <= Deg(g.randType)
    ensures place == (old(g.rptr) + draws) % Deg(g.randType) && x == Run(old(g.Window()), Sep(g.randType), draws)
    ensures g.rptr == old(g.rptr) && (g.rptr == place <==> draws % Deg(g.randType) == 0)
    ensures draws % Deg(g.randType) == 0 ==> g.Window() == x
  {
    hide Deg, Sep, Around, View, Run, Info;
    TypeFacts(g.randType);
    var _ := g.Draw(draws);
    place, x := g.rptr, g.Window();
    PointersStep(g.rptr, Sep(g.randType), Deg(g.randType));
    ghost var words, f := g.state[..], g.fptr;
    InfoUnpacks(g.randType, old(g.rptr));
    InfoFits(g.randType, old(g.rptr));
    WholeTurns(g.randType, old(g.rptr), draws);
    var _ := g.SetState(g.state);
    if draws % Deg(g.randType) == 0 { ViewIgnoresInfo(words, g.state[..], f, Deg(g.randType)); }
  }

  lemma WholeTurns(t: nat, r: nat, draws: nat)
    requires 0 < t < MAX_TYPES && r < Deg(t)
    ensures r == (r + draws) % Deg(t) <==> draws % Deg(t) == 0
  {
    hide Deg;
    var d, q, m := Deg(t), draws / Deg(t), draws % Deg(t);
    if r + m < d {
      Remainder(d, q, r + m);
      assert r + draws == q * d + (r + m);
    } else {
      Remainder(d, q + 1, r + m - d);
      assert r + draws == (q + 1) * d + (r + m - d);
    }
  }

  /** The generator as the library sets it up: one number drawn, setstate on the same array, and the place is lost. */
  method DisturbedByOne(table: array<nat>) returns (before: nat, after: nat)
    requires table.Length == 32 && table[0] == 3 && forall i :: 0 <= i < 32 ==> table[i] < TWO32
    modifies table
    ensures before == 1 && after == 0
  {
    var g := new Random(table);
    var _ := g.RandomUnlocked();
    before := g.rptr;
    var _ := g.SetState(g.state);
    after := g.rptr;
  }

  /** The linear congruential values the table starts from. */
  function Seeded(x: nat, k: nat): nat
  {
    if k == 0 then x else (1103515245 * Seeded(x, k - 1) + 12345) % TWO32
  }

  /** The values of the linear congruence of type 0. */
  function Congruent(x: nat, k: nat): nat
  {
    if k == 0 then x else (Congruent(x, k - 1) * 1103515245 + 12345) % TWO31
  }

  /** A freshly filled table as seen from the front pointer. */
  ghost function SeedWindow(x: nat, t: nat): (w: seq<nat>)
    requires 0 < t < MAX_TYPES
    ensures |w| == Deg(t) && 0 < Sep(t) <= |w|
  {
    TypeFacts(t);
    seq(Deg(t), k requires 0 <= k < Deg(t) => Seeded(x, Around(Sep(t), k, Deg(t))))
  }

  /** After i steps the rear pointer is at r, having gone round q times. */
  ghost predicate Turns(t: nat, q: nat, r: nat, i: nat)
    requires t < MAX_TYPES
  {
    r < Deg(t) && i == q * Deg(t) + r
  }

  lemma RunStart(x: seq<nat>, sep: nat)
    requires 0 < sep <= |x|
    ensures Run(x, sep, 0) == x
  {
  }

  lemma TurnsStart(t: nat, r: nat)
    requires 0 < t < MAX_TYPES && r < Deg(t)
    ensures Turns(t, 0, r, r)
  {
  }

  lemma TurnsPlace(t: nat, q: nat, r: nat, i: nat)
    requires 0 < t < MAX_TYPES && Turns(t, q, r, i)
    ensures r == i % Deg(t)
  {
    Remainder(Deg(t), q, r);
  }

  lemma Remainder(d: nat, q: nat, r: nat)
    requires r < d
    ensures (q * d + r) % d == r
  {
    var n := q * d + r;
    var k := q - n / d;
    assert k * d == n % d - r;
    if k != 0 {
      Farther(k, d);
    }
  }

  lemma Farther(k: int, d: nat)
    requires k != 0
    ensures k * d >= d || k * d + d <= 0
  {
    assert k >= 1 ==> k * d >= 1 * d;
    assert k <= -1 ==> (-k) * d >= 1 * d;
  }

  lemma RunStep(x: seq<nat>, sep: nat, n: nat)
    requires 0 < sep <= |x|
    ensures Run(x, sep, n + 1) == Shift(Run(x, sep, n), sep)
  {
  }

  lemma AtStart(sep: nat, deg: nat)
    requires sep < deg
    ensures Around(0, sep, deg) == sep
  {
  }

  lemma TurnsStep(t: nat, q: nat, r: nat, i: nat) returns (q': nat)
    requires 0 < t < MAX_TYPES && Turns(t, q, r, i)
    ensures Turns(t, q', Around(r, 1, Deg(t)), i + 1)
  {
    q' := if r + 1 < Deg(t) then q else q + 1;
    assert (q + 1) * Deg(t) == q * Deg(t) + Deg(t);
  }

  lemma TurnsDone(t: nat, q: nat, r: nat)
    requires 0 < t < MAX_TYPES && Turns(t, q, r, 10 * Deg(t))
    ensures r == 0
  {
    if t == 1 { assert 7 * q + r == 70; }
    else if t == 2 { assert 15 * q + r == 150; }
    else if t == 3 { assert 31 * q + r == 310; }
    else { assert 63 * q + r == 630; }
  }

  lemma FrontValue(f: nat, deg: nat)
    requires f < deg
    ensures Around(f, 0, deg) == f
  {
  }
}
