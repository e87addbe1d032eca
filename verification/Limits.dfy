/** The hard limits of `limits.rs`, plus the few constants that live beside the code using them. */
module Limits {
  const MAX_U64: nat := 0xFFFF_FFFF_FFFF_FFFF
  const MAX_U32: nat := 0xFFFF_FFFF

  const GIB: nat := 1024 * 1024 * 1024
  const MAX_FILE_BYTES: nat := 8 * GIB
  const MAX_OFFER_BYTES: nat := 16 * GIB
  const MAX_FILES_PER_OFFER: nat := 500
  const MAX_MESSAGE_BYTES: nat := 64 * 1024
  const MAX_NAME_BYTES: nat := 200
  const MAX_EXTENSION_BYTES: nat := 16
  const MAX_ALIAS_CHARS: nat := 64
  const MAX_MODEL_CHARS: nat := 64
  const MAX_PIN_CHARS: nat := 16
  const MAX_COMBINING_RUN: nat := 3
  const RATE_LIMIT_ENTRIES: nat := 256
  const GLOBAL_OFFER_BURST: nat := 10
  /** Milliseconds. */
  const GLOBAL_OFFER_WINDOW: nat := 60_000
  const MAX_ACTIVE_TRANSFERS: nat := 8
}

/** The stock value-or-nothing type. */
module Options {
  datatype Option<+T> = None | Some(value: T)
}

module Sets {
  lemma {:induction false} SubsetSize<T>(a: set<T>, b: set<T>)
    requires a <= b
    ensures |a| <= |b|
  {
    assert b == a + (b - a);
  }

  /** A list without repetitions is as long as the set of its members is large. */
  lemma {:induction false} NoRepetitions<T>(s: seq<T>)
    requires forall i, j :: 0 <= i < j < |s| ==> s[i] != s[j]
    ensures |set x | x in s| == |s|
  {
    if s != [] {
      var init := s[..|s| - 1];
      NoRepetitions(init);
      assert (set x | x in s) == (set x | x in init) + {s[|s| - 1]};
    }
  }
}

module Octets {
  type Byte = b: nat | b < 256
}
