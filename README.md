# dik: the KeyObserved state overlay

This project models `KeyObserved` from the Go package `dik`, a "joypad for a
robot". A `KeyObserved` watches a fixed set of DirectInput scan codes. Each
watched code holds a byte value. That value is normally `KeyReleased` (0x00)
or `KeyPressed` (0x80), but `In` can store any byte.
The host program presses and releases watched keys. The `GetDeviceState()`
hook calls `Out` with its 256-slot key-state buffer. `Out` then overwrites the
slot of every watched code with that key's value and leaves every other slot
alone.

Modules:

- `DIK` (consts.dfy): `uint8` as a newtype, the two key values, and four
  letter scan codes that the client scenarios use.
- `NoDup` (nodup.dfy): the duplicate-removing closure `getScanCodesNoDup`. It
  is a method with the program's loop over an `encountered` map. It is proved
  equal to the specification function `NoDup`, and lemmas state what `NoDup`
  keeps.
- `Observer` (observer.dfy): the class `KeyObserved` with three of the Go
  struct's four fields (its `mutex` is left out). The lookups are functions,
  except `StateAll`, which is a method that copies the table key by key, as
  the Go loop does. `In`, `PressKey`,
  `ReleaseKey` and `Out` are methods that change it. `Splice` is the function
  that specifies the buffer after `Out`.
- `Scenarios` (scenarios.dfy): client methods that use only the contracts:
  duplicates dropped, an empty watch set, press then splice, and the
  `StateRaw` finding below.

Go's `(value, err)` result pairs become the datatype `Reply`. A `nil` error
is `NoError`. The error "This observer doesn't look for that scan code" is
`NotObserved`. On that error `State` and `IsReleased` return the zero value
of their result (`0` or `false`), as the Go code does. `IsProbablyPressed`
negates the `false` of `IsReleased`, so it returns `(true, NotObserved)`.

The doc comment of `StateRaw` (observer.go:109) says it returns nil only
until `Out` is first called, but the code always returns nil. The model keeps
both: `StateRawAsWritten` is the code as written, `StateRaw` is the documented
behaviour, and the other contracts use `StateRaw` (see Findings).

## Model

| member | source | states |
|---|---|---|
| NoDup.ScanCodesNoDup | observer.go:49-65 | the `encountered`-map loop returns exactly `NoDup(elements)`; the result has no repeated code and holds exactly the codes of the input |
| NoDup.NoDupSameElements | observer.go:49-65 | a code is in the deduplicated sequence iff it is in the input |
| NoDup.NoDupDistinct | observer.go:54-61 | no code occurs twice in the deduplicated sequence |
| NoDup.NoDupFirstOccurrenceOrder | observer.go:53-62 | the surviving codes appear in the order of their first occurrence in the input |
| NoDup.NoDupLength | observer.go:68-78 | the deduplicated sequence has one element per distinct input code |
| Observer.KeyObserved.constructor | observer.go:48-80 | the watched codes are exactly the distinct input codes, all `KeyReleased`; the count equals the number of distinct codes; no buffer is bound (an empty input gives an empty table) |
| Observer.KeyObserved.NumberOfKeys | observer.go:90-93 | the cached count equals the size of the table, an invariant that every operation keeps |
| Observer.KeyObserved.IsAvailable | observer.go:95-104 | true exactly when the code is one of the watched codes |
| Observer.KeyObserved.StateRawAsWritten | observer.go:106-112 | the function as written always returns nil |
| Observer.KeyObserved.StateRaw | observer.go:106-112 | corrected: the bound buffer, a 256-slot buffer when present; nil after construction (constructor) and the buffer of the last call after `Out` |
| Observer.KeyObserved.StateAll | observer.go:114-125 | the key-by-key copy equals the current table, which it does not change |
| Observer.KeyObserved.State | observer.go:127-137 | a watched code gives its value with no error; any other code gives `(0, NotObserved)` |
| Observer.KeyObserved.IsReleased | observer.go:139-150 | passes on the error of `State`; true iff the code is watched and its value is `KeyReleased` |
| Observer.KeyObserved.IsProbablyPressed | observer.go:152-157 | same error as `State`; true iff the code is unwatched or its value differs from `KeyReleased`, so any non-zero value reads as pressed and an unknown code gives `(true, NotObserved)` |
| Observer.KeyObserved.In | observer.go:162-177 | a watched code gets the new value and every other entry is unchanged; an unwatched code changes nothing; the key set and the count never change |
| Observer.KeyObserved.PressKey | observer.go:202-205 | `In` with `KeyPressed`; a watched key then reads `(KeyPressed, NoError)` |
| Observer.KeyObserved.ReleaseKey | observer.go:207-210 | `In` with `KeyReleased`; a watched key then reads `(KeyReleased, NoError)` |
| Observer.KeyObserved.Out | observer.go:182-200 | binds the caller's buffer; the buffer becomes `Splice` of its old contents; the table is unchanged |
| Observer.Splice | observer.go:191-194 | every watched slot holds the key's value; every unwatched slot keeps its old value; 256 slots |
| Observer.SpliceIdempotent | observer.go:191-194 | splicing twice with the same table equals splicing once |
| Observer.SpliceOverridesWatched | observer.go:191-194 | two raw buffers that agree on the unwatched slots splice to the same buffer |
| Scenarios.StateRawLosesBinding | observer.go:110-112 | after `Out(bound)` the as-written `StateRaw` reports nil, not `bound`, while the corrected one reports `bound` |

## Left out

- The `sync.Mutex` that guards every operation. Each operation is one atomic step here. So the window in `In` between `IsAvailable` releasing the lock and the write taking it again is not modelled. The key set never changes, so that window does not change the result.
- `Out`: the conversion of the `uintptr` address to a `*[256]uint8`. The caller passes an array and must guarantee 256 slots. The validity of a raw address cannot be expressed.
- The random order in which Go ranges over a map in `Out` and `StateAll`. The loops pick any remaining key. The keys are distinct, so the order does not affect the result.
- The `KeyObserver` interface and `Self()`: they carry no logic.
- The commented-out `recover` and logging blocks.
- consts.go apart from the two key values and the four scan codes the scenarios use. The rest is a static table of scan codes, and its cgo import is not part of this model.
- `NumberOfKeys`: Go's `int` cannot overflow here, because there are at most 256 watched codes.

## Findings

| source | as written | input that shows it | evidently intended | confidence | as-written member | corrected member |
|---|---|---|---|---|---|---|
| observer.go:110-112 | `StateRaw` returns its own named result `actualKeys`, which is never assigned, so it is always nil | any observer after `Out(buf)`: `StateRaw()` is nil though `buf` is bound | return the field `ko.actualKeys`, which is nil only until the first `Out` (the doc comment at observer.go:109) | high; not executed | Observer.KeyObserved.StateRawAsWritten, shown by Scenarios.StateRawLosesBinding | Observer.KeyObserved.StateRaw |
