/**
 * The comparison Rust derives for byte arrays and slices (`Ord` on `[u8]`):
 * element by element from the front, the first differing byte decides, and a
 * proper prefix comes first.
 */
module Lexicographic {
  import opened Utf8

  /** `std::cmp::Ordering`. */
  datatype Ordering = Less | Equal | Greater {
    function Reverse(): Ordering {
      match this
      case Less => Greater
      case Equal => Equal
      case Greater => Less
    }
  }

  /** Equal exactly for equal sequences, as the derived `Ord` agrees with the derived `Eq`. */
  function Compare(a: seq<byte>, b: seq<byte>): (r: Ordering)
    ensures r == Equal <==> a == b
  {
    if a == [] && b == [] then Equal
    else if a == [] then Less
    else if b == [] then Greater
    else if a[0] < b[0] then Less
    else if a[0] > b[0] then Greater
    else
      assert a == [a[0]] + a[1..] && b == [b[0]] + b[1..];
      Compare(a[1..], b[1..])
  }

  /** `a` comes before `b` in dictionary order: a proper prefix, or smaller at the first difference. */
  ghost predicate PrecedesInDictionaryOrder(a: seq<byte>, b: seq<byte>) {
    (|a| < |b| && a == b[..|a|])
    || exists i :: 0 <= i < |a| && i < |b| && a[..i] == b[..i] && a[i] < b[i]
  }

  /** Swapping the operands reverses the outcome. */
  lemma {:induction false} CompareReverse(a: seq<byte>, b: seq<byte>)
    ensures Compare(b, a) == Compare(a, b).Reverse()
  {
    if a != [] && b != [] && a[0] == b[0] {
      CompareReverse(a[1..], b[1..]);
    }
  }

  lemma {:induction false} CompareTransitive(a: seq<byte>, b: seq<byte>, c: seq<byte>)
    requires Compare(a, b) == Less && Compare(b, c) == Less
    ensures Compare(a, c) == Less
  {
    if a != [] && b != [] && c != [] && a[0] == b[0] == c[0] {
      CompareTransitive(a[1..], b[1..], c[1..]);
    }
  }

  /** Less means: before in dictionary order. */
  lemma {:induction false} CompareLessIsDictionaryOrder(a: seq<byte>, b: seq<byte>)
    ensures Compare(a, b) == Less <==> PrecedesInDictionaryOrder(a, b)
  {
    if a == [] || b == [] {
    } else if a[0] < b[0] {
      assert a[..0] == b[..0];
    } else if a[0] > b[0] {
    } else {
      CompareLessIsDictionaryOrder(a[1..], b[1..]);
      if PrecedesInDictionaryOrder(a, b) {
        if |a| < |b| && a == b[..|a|] {
          assert a[1..] == b[1..][..|a[1..]|];
        } else {
          var i :| 0 <= i < |a| && i < |b| && a[..i] == b[..i] && a[i] < b[i];
          assert i > 0;
          assert a[1..][..i - 1] == a[..i][1..] == b[..i][1..] == b[1..][..i - 1];
        }
      }
      if PrecedesInDictionaryOrder(a[1..], b[1..]) {
        if |a[1..]| < |b[1..]| && a[1..] == b[1..][..|a[1..]|] {
          assert a == b[..|a|];
        } else {
          var i :| 0 <= i < |a[1..]| && i < |b[1..]| && a[1..][..i] == b[1..][..i] && a[1..][i] < b[1..][i];
          assert a[..i + 1] == [a[0]] + a[1..][..i] == [b[0]] + b[1..][..i] == b[..i + 1];
        }
      }
    }
  }
}
