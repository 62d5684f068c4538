/**
 The few PHP values and string built-ins the mini-calendar extension relies on:
 loosely typed values, `isset` on an array key, string comparison with `<`/`>`,
 `strpos` and `substr_replace`.
 */
module Php {

  datatype Option<T> = None | Some(value: T)

  /** The PHP values a target date or a settings entry can hold in this model. */
  datatype Value = Str(s: string) | Bool(b: bool) | Null

  /** `(string)$v`: what the `.` operator turns a value into. */
  function ToPhpString(v: Value): (r: string)
    ensures v.Str? ==> r == v.s
    ensures !v.Str? ==> |r| <= 1
    ensures v.Null? ==> r == ""
    ensures v == Bool(true) ==> r == "1"
    ensures v == Bool(false) ==> r == ""
  {
    match v
    case Str(s) => s
    case Bool(b) => if b then "1" else ""
    case Null => ""
  }

  /** `isset($m[k])`: the key is present and its value is not null. */
  function IsSet(m: map<string, Value>, k: string): (r: bool)
    ensures k !in m ==> !r
    ensures k in m && m[k] == Null ==> !r
    ensures k in m && (m[k].Bool? || m[k].Str?) ==> r
  {
    k in m && m[k] != Null
  }

  /**
   `$a < $b` on two non-numeric strings: `strcmp($a, $b) < 0`, the byte-wise
   lexicographic order in which a proper prefix comes first.
   */
  function StrLess(a: string, b: string): (r: bool)
    ensures |b| == 0 ==> !r
    ensures |a| < |b| && a == b[..|a|] ==> r
    ensures |a| > 0 && |b| > 0 && a[0] != b[0] ==> (r <==> a[0] < b[0])
    decreases |a|
  {
    if |a| == 0 then |b| > 0
    else if |b| == 0 then false
    else a[0] < b[0] || (a[0] == b[0] && StrLess(a[1..], b[1..]))
  }

  lemma {:induction false} StrLessIrreflexive(a: string)
    ensures !StrLess(a, a)
    decreases |a|
  {
    if |a| > 0 {
      StrLessIrreflexive(a[1..]);
    }
  }

  lemma {:induction false} StrLessAsymmetric(a: string, b: string)
    ensures StrLess(a, b) ==> !StrLess(b, a)
    decreases |a|
  {
    if |a| > 0 && |b| > 0 {
      StrLessAsymmetric(a[1..], b[1..]);
    }
  }

  lemma {:induction false} StrLessTotal(a: string, b: string)
    ensures a == b || StrLess(a, b) || StrLess(b, a)
    decreases |a|
  {
    if |a| > 0 && |b| > 0 && a[0] == b[0] {
      StrLessTotal(a[1..], b[1..]);
      if a[1..] == b[1..] {
        assert a == [a[0]] + a[1..] && b == [b[0]] + b[1..];
      }
    }
  }

  lemma {:induction false} StrLessTransitive(a: string, b: string, c: string)
    requires StrLess(a, b) && StrLess(b, c)
    ensures StrLess(a, c)
    decreases |a|
  {
    if |a| > 0 && a[0] == b[0] && b[0] == c[0] {
      StrLessTransitive(a[1..], b[1..], c[1..]);
    }
  }

  /**
   Comparing two strings that start with equally long parts compares those
   parts first and the rest only when the parts are equal.
   */
  lemma {:induction false} StrLessConcat(a: string, c: string, b: string, d: string)
    requires |a| == |b|
    ensures StrLess(a + c, b + d) <==> StrLess(a, b) || (a == b && StrLess(c, d))
    decreases |a|
  {
    if |a| > 0 {
      assert (a + c)[0] == a[0] && (b + d)[0] == b[0];
      assert (a + c)[1..] == a[1..] + c && (b + d)[1..] == b[1..] + d;
      StrLessConcat(a[1..], c, b[1..], d);
      if a[0] == b[0] && a[1..] == b[1..] {
        assert a == [a[0]] + a[1..] && b == [b[0]] + b[1..];
      }
      if a == b {
        assert a[1..] == b[1..];
      }
    } else {
      assert a + c == c && b + d == d;
    }
  }

  /** `substr($hay, $i, strlen($needle)) === $needle`. */
  predicate OccursAt(hay: string, needle: string, i: int)
  {
    0 <= i && i + |needle| <= |hay| && hay[i..i + |needle|] == needle
  }

  /** `strpos($hay, $needle)`: the first offset at which the needle occurs, if any. */
  function StrPos(hay: string, needle: string): (r: Option<nat>)
    ensures r.Some? ==> OccursAt(hay, needle, r.value)
    ensures r.Some? ==> forall j :: 0 <= j < r.value ==> !OccursAt(hay, needle, j)
    ensures r.None? ==> forall j :: !OccursAt(hay, needle, j)
  {
    StrPosFrom(hay, needle, 0)
  }

  /** The search of `strpos` from offset `from` onwards. */
  function StrPosFrom(hay: string, needle: string, from: nat): (r: Option<nat>)
    ensures r.Some? ==> from <= r.value && OccursAt(hay, needle, r.value)
    ensures r.Some? ==> forall j :: from <= j < r.value ==> !OccursAt(hay, needle, j)
    ensures r.None? ==> forall j :: from <= j ==> !OccursAt(hay, needle, j)
    decreases |hay| - from
  {
    if from + |needle| > |hay| then None
    else if hay[from..from + |needle|] == needle then Some(from)
    else StrPosFrom(hay, needle, from + 1)
  }

  /**
   The offset at which `substr_replace($s, $rep, $start)` (no length given)
   starts replacing: a negative start counts back from the end, and either
   kind is clamped to the string.
   */
  function ReplaceOffset(len: nat, start: int): (k: nat)
    ensures k <= len
    ensures 0 <= start <= len ==> k == start
    ensures 0 - len <= start < 0 ==> k == len + start
    ensures start < 0 - len ==> k == 0
    ensures start > len ==> k == len
  {
    if start < 0 then (if len + start < 0 then 0 else len + start)
    else if start > len then len
    else start
  }

  /** `substr_replace($s, $rep, $start)`: everything from the offset on is replaced by `rep`. */
  function SubstrReplace(s: string, rep: string, start: int): (r: string)
    ensures |r| == ReplaceOffset(|s|, start) + |rep|
    ensures r[..ReplaceOffset(|s|, start)] == s[..ReplaceOffset(|s|, start)]
    ensures r[ReplaceOffset(|s|, start)..] == rep
  {
    s[..ReplaceOffset(|s|, start)] + rep
  }
}
