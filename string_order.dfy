/**
 * The default order of `Array.prototype.sort` on strings: lexicographic
 * comparison of the UTF-16 code units (the IsLessThan comparison of
 * section 7.2.13 of ECMA-262). Dafny characters are Unicode scalar values,
 * so each one is first written out as one or two UTF-16 code units.
 */
module StringOrder {
  import opened Sorting

  /** The UTF-16 encoding of one character: one unit below U+10000, else a surrogate pair. */
  function CodeUnits(c: char): (u: seq<int>)
    ensures |u| == 1 || |u| == 2
    ensures |u| == 1 <==> c as int < 0x10000
    ensures |u| == 1 ==> u[0] == c as int && !(0xD800 <= u[0] < 0xE000)
    ensures |u| == 2 ==> && 0xD800 <= u[0] < 0xDC00
                         && 0xDC00 <= u[1] < 0xE000
                         && c as int == 0x10000 + (u[0] - 0xD800) * 0x400 + (u[1] - 0xDC00)
  {
    var v := c as int;
    if v < 0x10000 then [v]
    else [0xD800 + (v - 0x10000) / 0x400, 0xDC00 + (v - 0x10000) % 0x400]
  }

  /** The UTF-16 code units of a string, character by character. */
  function Utf16(s: string): (u: seq<int>)
    ensures |u| >= |s|
    decreases |s|
  {
    if |s| == 0 then [] else CodeUnits(s[0]) + Utf16(s[1..])
  }

  /** Different strings have different encodings, so the order below never ties two of them. */
  lemma {:induction false} Utf16Injective(s: string, t: string)
    requires Utf16(s) == Utf16(t)
    ensures s == t
    decreases |s|
  {
    if |s| > 0 && |t| > 0 {
      var us, ut := CodeUnits(s[0]), CodeUnits(t[0]);
      assert Utf16(s)[0] == us[0] && Utf16(t)[0] == ut[0];
      assert |us| == |ut|;
      assert Utf16(s)[..|us|] == us && Utf16(t)[..|ut|] == ut;
      assert us == ut;
      assert s[0] == t[0];
      assert Utf16(s)[|us|..] == Utf16(s[1..]);
      assert Utf16(t)[|ut|..] == Utf16(t[1..]);
      Utf16Injective(s[1..], t[1..]);
      assert s == [s[0]] + s[1..] && t == [t[0]] + t[1..];
    }
  }

  /** -1, 0 or 1 as `a` sorts before, equal to or after `b`, unit by unit; a proper prefix sorts first. */
  function Compare(a: seq<int>, b: seq<int>): (r: int)
    ensures -1 <= r <= 1
    decreases |a|
  {
    if |a| == 0 && |b| == 0 then 0
    else if |a| == 0 then -1
    else if |b| == 0 then 1
    else if a[0] < b[0] then -1
    else if a[0] > b[0] then 1
    else Compare(a[1..], b[1..])
  }

  /**
   * IsLessThan as the standard words it: `a` is a proper prefix of `b`, or
   * at the first position where they differ `a` has the smaller unit.
   */
  ghost predicate Less(a: seq<int>, b: seq<int>) {
    || (|a| < |b| && a == b[..|a|])
    || exists k :: 0 <= k < |a| && k < |b| && a[..k] == b[..k] && a[k] < b[k]
  }

  /** `Compare` says "before" exactly when IsLessThan holds. */
  lemma {:induction false} CompareIsLess(a: seq<int>, b: seq<int>)
    ensures Compare(a, b) < 0 <==> Less(a, b)
    decreases |a|
  {
    if |a| > 0 && |b| > 0 {
      CompareIsLess(a[1..], b[1..]);
      if a[0] == b[0] {
        if Less(a[1..], b[1..]) {
          if |a[1..]| < |b[1..]| && a[1..] == b[1..][..|a[1..]|] {
            assert a == b[..|a|];
          } else {
            var k :| 0 <= k < |a[1..]| && k < |b[1..]| && a[1..][..k] == b[1..][..k] && a[1..][k] < b[1..][k];
            assert a[..k + 1] == b[..k + 1];
          }
        }
        if Less(a, b) {
          if |a| < |b| && a == b[..|a|] {
            assert a[1..] == b[1..][..|a[1..]|];
          } else {
            var k :| 0 <= k < |a| && k < |b| && a[..k] == b[..k] && a[k] < b[k];
            assert k > 0;
            assert a[1..][..k - 1] == b[1..][..k - 1];
          }
        }
      } else if a[0] < b[0] {
        assert a[..0] == b[..0];
      } else {
        forall k | 0 < k <= |a| && k <= |b|
          ensures a[..k] != b[..k]
        {
          assert a[..k][0] != b[..k][0];
        }
        if |a| < |b| {
          assert b[..|a|][0] != a[0];
        }
      }
    } else if |a| == 0 && |b| > 0 {
      assert a == b[..0];
    }
  }

  lemma {:induction false} CompareAntisymmetric(a: seq<int>, b: seq<int>)
    ensures Compare(a, b) == -Compare(b, a)
    decreases |a|
  {
    if |a| > 0 && |b| > 0 {
      CompareAntisymmetric(a[1..], b[1..]);
    }
  }

  lemma {:induction false} CompareZero(a: seq<int>, b: seq<int>)
    ensures Compare(a, b) == 0 <==> a == b
    decreases |a|
  {
    if |a| > 0 && |b| > 0 {
      CompareZero(a[1..], b[1..]);
      assert a == [a[0]] + a[1..] && b == [b[0]] + b[1..];
    }
  }

  lemma {:induction false} CompareTransitive(a: seq<int>, b: seq<int>, c: seq<int>)
    requires Compare(a, b) <= 0 && Compare(b, c) <= 0
    ensures Compare(a, c) <= 0
    decreases |a|
  {
    if |a| > 0 && |b| > 0 && |c| > 0 && a[0] == b[0] == c[0] {
      CompareTransitive(a[1..], b[1..], c[1..]);
    }
  }

  /** The comparator the default sort uses on strings. */
  function CodeUnitOrder(): (string, string) -> real {
    (x: string, y: string) => Compare(Utf16(x), Utf16(y)) as real
  }

  /** The default string order is one `Array.prototype.sort` can use. */
  lemma CodeUnitOrderIsTotalPreorder()
    ensures IsTotalPreorder(CodeUnitOrder())
  {
    var cmp := CodeUnitOrder();
    forall x, y ensures ComparableAt(cmp, x, y) {
      CompareAntisymmetric(Utf16(x), Utf16(y));
    }
    forall x, y, z ensures TransitiveAt(cmp, x, y, z) {
      if cmp(x, y) <= 0.0 && cmp(y, z) <= 0.0 {
        CompareTransitive(Utf16(x), Utf16(y), Utf16(z));
      }
    }
  }

  /** Only equal strings compare equal, so no two different strings tie. */
  lemma CodeUnitOrderTiesOnlyEqual(x: string, y: string)
    requires CodeUnitOrder()(x, y) == 0.0
    ensures x == y
  {
    CompareZero(Utf16(x), Utf16(y));
    Utf16Injective(x, y);
  }
}
