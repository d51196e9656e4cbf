/**
 * Shared vocabulary of the model: bytes, optional values and the
 * `nosize` marker that FileZilla's engine uses for an unknown size.
 */
module Common {
  /** An 8-bit unsigned value, as `uint8_t`. */
  newtype byte = x: int | 0 <= x < 256

  /** `std::numeric_limits<uint64_t>::max()`, the engine's `nosize`/`npos`. */
  const NoSize: int := 0x1_0000_0000_0000_0000 - 1

  datatype Option<T> = None | Some(value: T)

  function Min(a: int, b: int): int
  {
    if a <= b then a else b
  }

  /**
   * A size that is probed once and then remembered (`std::optional<uint64_t>
   * size_` of the file readers, writers and their factories); a negative
   * probe result is remembered as `NoSize`.
   */
  class SizeCache {
    var cached: Option<nat>

    constructor ()
      ensures cached == None
    {
      cached := None;
    }

    /** `probe` is what the file-system size query would return. */
    method Get(probe: int) returns (s: nat)
      modifies this
      ensures old(cached).Some? ==> s == old(cached).value && cached == old(cached)
      ensures old(cached).None? ==> s == (if probe < 0 then NoSize else probe)
      ensures cached == Some(s)
    {
      if cached.Some? {
        return cached.value;
      }
      if probe < 0 {
        cached := Some(NoSize);
      } else {
        cached := Some(probe);
      }
      s := cached.value;
    }
  }

  /** Concatenation of a sequence of byte strings, in order. */
  function Flatten<T>(parts: seq<seq<T>>): (r: seq<T>)
    decreases |parts|
  {
    if parts == [] then [] else parts[0] + Flatten(parts[1..])
  }

  lemma {:induction false} FlattenCons<T>(first: seq<T>, rest: seq<seq<T>>)
    ensures Flatten([first] + rest) == first + Flatten(rest)
  {
    assert ([first] + rest)[1..] == rest;
  }

  lemma {:induction false} FlattenConcat<T>(a: seq<seq<T>>, b: seq<seq<T>>)
    ensures Flatten(a + b) == Flatten(a) + Flatten(b)
    decreases |a|
  {
    if a == [] {
      assert a + b == b;
    } else {
      assert (a + b)[1..] == a[1..] + b;
      FlattenConcat(a[1..], b);
    }
  }

  lemma {:induction false} FlattenAppend<T>(parts: seq<seq<T>>, last: seq<T>)
    ensures Flatten(parts + [last]) == Flatten(parts) + last
  {
    FlattenConcat(parts, [last]);
    FlattenCons(last, []);
    assert [last] + [] == [last];
  }

  /** Every character of `s` is an ASCII decimal digit. */
  predicate AllDigits(s: seq<char>)
  {
    forall i :: 0 <= i < |s| ==> '0' <= s[i] <= '9'
  }

  /** The decimal value of a digit string, most significant digit first. */
  function DigitsValue(s: seq<char>): (v: nat)
    requires AllDigits(s)
    decreases |s|
  {
    if s == [] then 0 else DigitsValue(s[..|s| - 1]) * 10 + (s[|s| - 1] as int - '0' as int)
  }
}
