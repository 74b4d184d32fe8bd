/** One key of a force-sensitive-resistor keyboard: the character it stands for,
    the two ASCII case variants derived from it, and a two-state press/release
    machine that notifies the host keyboard library on every edge.

    The host library (`Keyboard.press` / `Keyboard.release`) is not modelled;
    each call into it is recorded as an `Event` in a ghost log. */
module FsrKeyboard {

  /** A C++ `char`: the range covers both a signed and an unsigned `char`. */
  type Char = c: int | -128 <= c <= 255

  /** A call the host keyboard library receives. */
  datatype Event = Press(key: Char) | Release(key: Char)

  /** The two operations that change a key's state. */
  datatype Call = KeyPress | KeyRelease

  /** The state that the press/release operations change: the pressed flag and
      the notifications sent so far. */
  datatype KeyState = KeyState(pressed: bool, log: seq<Event>)

  /** The two case variants of a character. */
  datatype Variants = Variants(lower: Char, upper: Char)

  // ---------------------------------------------------------------------------
  // Case derivation

  /** Raw ASCII range checks, as the constructor performs them. */
  predicate IsUpperAscii(c: int) { 65 <= c <= 90 }
  predicate IsLowerAscii(c: int) { 97 <= c <= 122 }
  predicate IsAsciiLetter(c: int) { IsUpperAscii(c) || IsLowerAscii(c) }

  /** The variants the constructor derives for `c`: a letter gets its
      other-case partner (32 code points away), anything else keeps `c` in both. */
  function DeriveCase(c: Char): (v: Variants)
    ensures IsAsciiLetter(c) ==>
      IsLowerAscii(v.lower) && IsUpperAscii(v.upper) && v.lower - v.upper == 32
    ensures IsAsciiLetter(c) ==> c == v.lower || c == v.upper
    ensures IsUpperAscii(c) ==> v.upper == c
    ensures IsLowerAscii(c) ==> v.lower == c
    ensures !IsAsciiLetter(c) ==> v.lower == c && v.upper == c
  {
    if IsUpperAscii(c) then Variants(c + 32, c)
    else if IsLowerAscii(c) then Variants(c, c - 32)
    else Variants(c, c)
  }

  /** Both variants of a letter are keys that derive the very same variants:
      deriving from the lower or the upper case of a letter agrees. */
  lemma VariantsAreStable(c: Char)
    ensures DeriveCase(DeriveCase(c).lower) == DeriveCase(c)
    ensures DeriveCase(DeriveCase(c).upper) == DeriveCase(c)
  {
  }

  /** 'A' and 'a' are letters with variants 'a' and 'A'; '5' is not a letter. */
  lemma CaseScenarios()
    ensures IsAsciiLetter('A' as int) && DeriveCase('A' as int) == Variants('a' as int, 'A' as int)
    ensures IsAsciiLetter('a' as int) && DeriveCase('a' as int) == Variants('a' as int, 'A' as int)
    ensures !IsAsciiLetter('5' as int) && DeriveCase('5' as int) == Variants('5' as int, '5' as int)
  {
  }

  // ---------------------------------------------------------------------------
  // Press/release state machine

  /** A fresh key: released, nothing sent to the host yet. */
  function Initial(): KeyState
  {
    KeyState(false, [])
  }

  /** The effect of one call on a key whose character is `key`: a press from
      released (or a release from pressed) sends one notification for `key`
      and flips the flag; from the other state it does nothing. */
  function Apply(s: KeyState, key: Char, call: Call): (r: KeyState)
    ensures r.pressed == call.KeyPress?
    ensures s.log <= r.log && |r.log| <= |s.log| + 1
    ensures r.log == s.log <==> r.pressed == s.pressed
    ensures r.pressed != s.pressed ==>
      r.log[|s.log|] == (if r.pressed then Press(key) else Release(key))
  {
    match call
    case KeyPress => if !s.pressed then KeyState(true, s.log + [Press(key)]) else s
    case KeyRelease => if s.pressed then KeyState(false, s.log + [Release(key)]) else s
  }

  /** The state after a sequence of calls on a freshly constructed key. */
  function Replay(key: Char, calls: seq<Call>): KeyState
  {
    if calls == [] then Initial()
    else Apply(Replay(key, calls[..|calls| - 1]), key, calls[|calls| - 1])
  }

  /** The `i`-th notification of an alternating log: presses at even
      positions, releases at odd ones. */
  function Expected(i: nat, key: Char): Event
  {
    if i % 2 == 0 then Press(key) else Release(key)
  }

  /** The log is `Press(key), Release(key), Press(key), ...`. */
  ghost predicate Alternates(log: seq<Event>, key: Char)
  {
    forall i :: 0 <= i < |log| ==> log[i] == Expected(i, key)
  }

  /** What every reachable state satisfies: the log alternates, starting with a
      press, and the key is pressed exactly when the log has odd length. */
  ghost predicate WellFormed(s: KeyState, key: Char)
  {
    Alternates(s.log, key) && (s.pressed <==> |s.log| % 2 == 1)
  }

  /** Number of `Press` and `Release` notifications in a log. */
  function Presses(log: seq<Event>): nat
  {
    if log == [] then 0 else Presses(log[..|log| - 1]) + (if log[|log| - 1].Press? then 1 else 0)
  }

  function Releases(log: seq<Event>): nat
  {
    if log == [] then 0 else Releases(log[..|log| - 1]) + (if log[|log| - 1].Release? then 1 else 0)
  }

  /** Each call keeps a reachable state reachable. */
  lemma ApplyPreservesWellFormed(s: KeyState, key: Char, call: Call)
    requires WellFormed(s, key)
    ensures WellFormed(Apply(s, key, call), key)
  {
  }

  /** Any sequence of calls on a fresh key yields an alternating log whose
      parity is the pressed flag. */
  lemma {:induction false} ReplayWellFormed(key: Char, calls: seq<Call>)
    ensures WellFormed(Replay(key, calls), key)
  {
    if calls != [] {
      ReplayWellFormed(key, calls[..|calls| - 1]);
      ApplyPreservesWellFormed(Replay(key, calls[..|calls| - 1]), key, calls[|calls| - 1]);
    }
  }

  /** In an alternating log every press but possibly the last is matched by a
      release: presses are `ceil(n/2)` and releases `floor(n/2)`. */
  lemma {:induction false} AlternatingCounts(log: seq<Event>, key: Char)
    requires Alternates(log, key)
    ensures Presses(log) == (|log| + 1) / 2
    ensures Releases(log) == |log| / 2
  {
    if log != [] {
      var init := log[..|log| - 1];
      assert Alternates(init, key) by {
        forall i | 0 <= i < |init| ensures init[i] == Expected(i, key) {
          assert init[i] == log[i];
        }
      }
      AlternatingCounts(init, key);
      assert log[|log| - 1] == Expected(|log| - 1, key);
    }
  }

  /** Exactly one notification per edge over any history: the host has seen
      one more press than releases while the key is held, and equally many
      once it is released. */
  lemma NotificationsBalance(key: Char, calls: seq<Call>)
    ensures var s := Replay(key, calls);
      Presses(s.log) == Releases(s.log) + (if s.pressed then 1 else 0)
  {
    ReplayWellFormed(key, calls);
    AlternatingCounts(Replay(key, calls).log, key);
  }

  /** Repeating a call from the state it produces changes nothing. */
  lemma ApplyIdempotent(s: KeyState, key: Char, call: Call)
    ensures Apply(Apply(s, key, call), key, call) == Apply(s, key, call)
  {
  }

  /** A fresh key that is only released sends nothing. */
  lemma {:induction false} ReleaseOnlyIsSilent(key: Char, n: nat)
    ensures Replay(key, seq(n, _ => KeyRelease)) == Initial()
  {
    if n > 0 {
      var calls := seq(n, _ => KeyRelease);
      assert calls[..n - 1] == seq(n - 1, _ => KeyRelease);
      ReleaseOnlyIsSilent(key, n - 1);
    }
  }

  /** Every notification carries the key's own character, never a case variant. */
  lemma {:induction false} LogCarriesKey(key: Char, calls: seq<Call>, i: nat)
    requires i < |Replay(key, calls).log|
    ensures Replay(key, calls).log[i].key == key
  {
    ReplayWellFormed(key, calls);
  }

  /** 'A', press, press, release, release: one press and one release of 'A'. */
  lemma PressTwiceReleaseTwice()
    ensures Replay('A' as int, [KeyPress, KeyPress, KeyRelease, KeyRelease])
            == KeyState(false, [Press('A' as int), Release('A' as int)])
  {
    var a := 'A' as int;
    var held := KeyState(true, [Press(a)]);
    assert Replay(a, [KeyPress]) == held by {
      assert [KeyPress][..0] == [];
    }
    assert Replay(a, [KeyPress, KeyPress]) == held by {
      assert [KeyPress, KeyPress][..1] == [KeyPress];
    }
    assert Replay(a, [KeyPress, KeyPress, KeyRelease]) == KeyState(false, [Press(a), Release(a)]) by {
      assert [KeyPress, KeyPress, KeyRelease][..2] == [KeyPress, KeyPress];
    }
    assert [KeyPress, KeyPress, KeyRelease, KeyRelease][..3] == [KeyPress, KeyPress, KeyRelease];
  }

  // ---------------------------------------------------------------------------
  // The key object

  class FsrKey {
    /** The character the key was configured with (`self` in the source). */
    var key: Char
    var lowerCase: Char
    var upperCase: Char
    var isPressed: bool
    var isLetter: bool
    /** Calls made into the host keyboard library, oldest first. */
    ghost var log: seq<Event>

    /** The character fields are those derived from `key`, and the pressed
        flag and the log form a reachable state. */
    ghost predicate Valid()
      reads this
    {
      lowerCase == DeriveCase(key).lower && upperCase == DeriveCase(key).upper &&
      isLetter == IsAsciiLetter(key) &&
      WellFormed(State(), key)
    }

    ghost function State(): KeyState
      reads this
    {
      KeyState(isPressed, log)
    }

    /** An unconfigured key slot: every field at its default. */
    constructor Default()
      ensures Valid()
      ensures key == 0 && lowerCase == 0 && upperCase == 0
      ensures !isLetter && !isPressed && log == []
    {
      key, lowerCase, upperCase := 0, 0, 0;
      isPressed, isLetter := false, false;
      log := [];
    }

    /** A key for `theKey`, with its case variants derived by range checks. */
    constructor (theKey: Char)
      ensures Valid()
      ensures key == theKey && !isPressed && log == []
      ensures IsUpperAscii(theKey) ==> isLetter && upperCase == theKey && lowerCase == theKey + 32
      ensures IsLowerAscii(theKey) ==> isLetter && lowerCase == theKey && upperCase == theKey - 32
      ensures !IsAsciiLetter(theKey) ==> !isLetter && lowerCase == theKey && upperCase == theKey
    {
      isPressed, isLetter := false, false;
      log := [];
      key := theKey;
      lowerCase := theKey;
      upperCase := theKey;
      new;
      if key >= 65 && key <= 90 {
        lowerCase := key + 32;
        isLetter := true;
      } else if key >= 97 && key <= 122 {
        upperCase := key - 32;
        isLetter := true;
      }
    }

    /** Presses the key: notifies the host only when it was released. */
    method KeyPress()
      requires Valid()
      modifies this`isPressed, this`log
      ensures Valid()
      ensures State() == Apply(old(State()), key, Call.KeyPress)
      ensures isPressed
      ensures log == if old(isPressed) then old(log) else old(log) + [Press(key)]
    {
      ApplyPreservesWellFormed(State(), key, Call.KeyPress);
      if !isPressed {
        log := log + [Press(key)];
        isPressed := true;
      }
    }

    /** Releases the key: notifies the host only when it was pressed. */
    method KeyRelease()
      requires Valid()
      modifies this`isPressed, this`log
      ensures Valid()
      ensures State() == Apply(old(State()), key, Call.KeyRelease)
      ensures !isPressed
      ensures log == if old(isPressed) then old(log) + [Release(key)] else old(log)
    {
      ApplyPreservesWellFormed(State(), key, Call.KeyRelease);
      if isPressed {
        log := log + [Release(key)];
        isPressed := false;
      }
    }
  }

  /** 'A', press, press, release, release on the object itself. */
  method PressTwiceReleaseTwiceOnKey() returns (k: FsrKey)
    ensures k.Valid() && !k.isPressed
    ensures k.isLetter && k.lowerCase == 'a' as int && k.upperCase == 'A' as int
    ensures k.log == [Press('A' as int), Release('A' as int)]
  {
    k := new FsrKey('A' as int);
    k.KeyPress();
    k.KeyPress();
    k.KeyRelease();
    k.KeyRelease();
  }
}
