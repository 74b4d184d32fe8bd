# FSRKEY — one key of a force-sensitive-resistor keyboard

This project models the `FSRKEY` class of the firmware in Dafny and proves
properties of that model. An `FSRKEY` is one physical key. It stores the
character it was configured with. It derives that character's ASCII lower- and
upper-case variants with raw range checks: 65–90 is upper case, 97–122 is lower
case, and the partner is 32 code points away. It also runs a two-state
press/release machine that calls the host keyboard library only on an edge.

The model is one module, `FsrKeyboard` in `fsr_key.dfy`:

- `FsrKey` is the class with the source's fields. `self` is called `key` here.
  The other fields are `lowerCase`, `upperCase`, `isPressed` and `isLetter`. A
  ghost field `log` records the calls made to the host library.
- There are two constructors. `Default` is the no-argument one. The anonymous
  constructor takes a character and assigns the fields one by one, with the
  source's conditional overwrites.
- `KeyPress` and `KeyRelease` change only `isPressed` and the log.
- The pure functions specify the methods. `DeriveCase` gives the case variants
  of a character. `Apply` gives the effect of one call on the pressed flag and
  the log. `Replay` folds `Apply` over any sequence of calls made on a fresh key.
- The lemmas are proved about these functions. Each method's `ensures` ties its
  new state to `Apply`, so the lemmas hold for the object as well.
- The class invariant `Valid` states two things. The character fields are the
  ones `DeriveCase` gives for `key`. The log alternates `Press(key)`,
  `Release(key)`, … and has odd length exactly when the key is pressed.

A C++ `char` is modelled as an integer in -128..255, which covers both signed
and unsigned `char`. The two library calls `Keyboard.press(c)` and
`Keyboard.release(c)` become the events `Press(c)` and `Release(c)`.

## Model

| member | source | states |
|---|---|---|
| FsrKeyboard.DeriveCase | FSRKey/FSRKEY.cpp:6-17 | for a letter, the lower variant lies in 97..122, the upper variant in 65..90, they differ by exactly 32, and the character is one of them (upper for 65..90, lower for 97..122); for any other character both variants equal the character |
| FsrKeyboard.VariantsAreStable | FSRKey/FSRKEY.cpp:10-17 | deriving the variants from either variant of a character gives back the same pair, so the two case variants of a letter are each other's partners |
| FsrKeyboard.CaseScenarios | FSRKey/FSRKEY.cpp:6-17 | 'A' and 'a' are letters whose variants are ('a', 'A'); '5' is not a letter and both its variants are '5' |
| FsrKeyboard.Apply | FSRKey/FSRKEY.cpp:20-32 | after a press the key is pressed and after a release it is released, whatever the state was before; the log only grows, by at most one entry; an entry is added exactly when the flag flips, and it is `Press(key)` on a press edge and `Release(key)` on a release edge |
| FsrKeyboard.ApplyIdempotent | FSRKey/FSRKEY.cpp:20-32 | repeating a press or a release right after itself changes neither the flag nor the log |
| FsrKeyboard.ApplyPreservesWellFormed | FSRKey/FSRKEY.cpp:20-32 | a press or a release keeps the log alternating from `Press` and keeps "pressed iff odd log length" |
| FsrKeyboard.ReplayWellFormed | FSRKey/FSRKEY.cpp:20-32 | any sequence of calls on a fresh key gives a log that strictly alternates `Press(key)`, `Release(key)`, … starting with `Press`, and the key is pressed exactly when that log has odd length |
| FsrKeyboard.AlternatingCounts | FSRKey/FSRKEY.cpp:20-32 | an alternating log of length n holds ceil(n/2) presses and floor(n/2) releases |
| FsrKeyboard.NotificationsBalance | FSRKey/FSRKEY.cpp:20-32 | after any history of calls the host has received one more press than releases if the key is held, and equally many if it is released |
| FsrKeyboard.ReleaseOnlyIsSilent | FSRKey/FSRKEY.cpp:27-32 | releasing a never-pressed key any number of times sends nothing and leaves it released |
| FsrKeyboard.LogCarriesKey | FSRKey/FSRKEY.cpp:20-32 | every notification sent by any sequence of calls carries the key's own character, never a case variant |
| FsrKeyboard.PressTwiceReleaseTwice | FSRKey/FSRKEY.cpp:20-32 | key 'A', then press, press, release, release: the log is exactly [Press('A'), Release('A')] and the key ends released |
| FsrKeyboard.FsrKey.Default | FSRKey/FSRKEY.h:10-14 | the no-argument key has character 0, both variants 0, is not a letter, is not pressed, has sent nothing, and satisfies the class invariant |
| FsrKeyboard.FsrKey.constructor | FSRKey/FSRKEY.cpp:6-18 | for 65..90 the key is a letter with upper case the character and lower case the character + 32; for 97..122 it is a letter with lower case the character and upper case the character - 32; otherwise it is not a letter and both variants are the character; it starts released with an empty log |
| FsrKeyboard.FsrKey.KeyPress | FSRKey/FSRKEY.cpp:20-25 | from released: appends exactly one `Press(key)` and sets the flag; from pressed: nothing changes; the new state is `Apply` of the old; the character fields are not modified and the class invariant is kept |
| FsrKeyboard.FsrKey.KeyRelease | FSRKey/FSRKEY.cpp:27-32 | from pressed: appends exactly one `Release(key)` and clears the flag; from released: nothing changes; the new state is `Apply` of the old; the character fields are not modified and the class invariant is kept |
| FsrKeyboard.PressTwiceReleaseTwiceOnKey | FSRKey/FSRKEY.h:6-17 | the same scenario run on the object: `FsrKey('A')` with press, press, release, release ends released, with variants 'a' and 'A', after sending exactly [Press('A'), Release('A')] |

## Left out

- The Arduino `Keyboard` library (USB HID transport, mapping a character to a HID usage) is not part of this model. Its two calls appear only as entries of the ghost log.
- Sensor sampling, press/release thresholds and the firmware main loop are not part of this model. They are hardware I/O.
- Concurrency is not modelled. The read-then-write of the pressed flag runs on a single thread.
- The fields are `public` in the source, so other code could write them directly. The model assumes they are written only by the constructors and the two methods. The claim that the character fields stay fixed rests on that assumption.
- Platform `char` signedness is not modelled. A character is an integer in -128..255. Arithmetic happens only inside the letter ranges, where adding or subtracting 32 stays within 65..122, so no wrap-around can occur.
