/**
 * Client code that exercises the overlay only through the contracts of
 * `KeyObserved`, as the host program and the hook would use it.
 */
module Scenarios {
  import opened DIK
  import opened Observer

  /** Duplicates are dropped: `[Z, X, Z, C]` watches three keys. */
  method DuplicatesAreDropped()
  {
    var ko := new KeyObserved([Z, X, Z, C]);
    assert (set c | c in [Z, X, Z, C]) == {Z, X, C};
    assert ko.NumberOfKeys() == 3;
    assert ko.IsAvailable(Z) && ko.IsAvailable(X) && ko.IsAvailable(C);
    assert !ko.IsAvailable(V);
    assert ko.State(X) == Reply(KeyReleased, NoError);
  }

  /** An empty watch set is legal; every lookup then fails. */
  method EmptyWatchSet()
  {
    var ko := new KeyObserved([]);
    assert (set c: uint8 | c in []) == {};
    assert ko.NumberOfKeys() == 0;
    assert ko.State(Z) == Reply(0, NotObserved);
    assert ko.IsProbablyPressed(Z) == Reply(true, NotObserved);
  }

  /** A pressed key is spliced into an all-zero buffer; nothing else changes. */
  method PressThenSplice()
  {
    var ko := new KeyObserved([Z]);
    ko.PressKey(Z);
    ko.ReleaseKey(X);
    assert ko.IsProbablyPressed(Z) == Reply(true, NoError);
    var buf := new uint8[256](_ => 0);
    ko.Out(buf);
    assert buf[Z] == KeyPressed;
    assert forall k: uint8 :: k != Z ==> buf[k] == 0;
    ko.ReleaseKey(Z);
    assert ko.IsReleased(Z) == Reply(true, NoError);
    assert buf[Z] == KeyPressed;
  }

  /**
   * `StateRaw` as written reports no buffer even after `Out` has bound one,
   * while the corrected `StateRaw` reports the bound buffer.
   */
  method StateRawLosesBinding() returns (bound: array<uint8>, reported: array?<uint8>)
    ensures bound.Length == 256
    ensures reported != bound
  {
    var ko := new KeyObserved([Z]);
    bound := new uint8[256](_ => 0);
    ko.Out(bound);
    reported := ko.StateRawAsWritten();
    assert ko.StateRaw() == bound;
  }
}
