/** Ingredient labels: the normalisation applied to a recipe's ingredient name
    (`ingredient.split('(')[0].strip().lower()`) and Python's substring test
    `item in key`, used to match a shopping-list item against a store's price
    keys. */
module Labels {

  /** Python's `str.isspace()` for one character: the characters `strip()`
      removes when called without arguments. */
  predicate IsSpace(c: char)
  {
    var n := c as int;
    9 <= n <= 13 || 0x1C <= n <= 0x20 || n == 0x85 || n == 0xA0 || n == 0x1680 ||
    0x2000 <= n <= 0x200A || n == 0x2028 || n == 0x2029 || n == 0x202F ||
    n == 0x205F || n == 0x3000
  }

  predicate IsUpper(c: char)
  {
    'A' <= c <= 'Z'
  }

  function LowerChar(c: char): char
  {
    if IsUpper(c) then (c as int + 32) as char else c
  }

  /** `s.lower()` on the letters A to Z. */
  function Lower(s: string): (r: string)
    ensures |r| == |s|
  {
    seq(|s|, i requires 0 <= i < |s| => LowerChar(s[i]))
  }

  /** `s.split('(')[0]`. */
  function BeforeParen(s: string): string
  {
    if s == [] || s[0] == '(' then []
    else [s[0]] + BeforeParen(s[1..])
  }

  /** `s.lstrip()`. */
  function TrimStart(s: string): string
  {
    if s != [] && IsSpace(s[0]) then TrimStart(s[1..]) else s
  }

  /** `s.rstrip()`. */
  function TrimEnd(s: string): string
  {
    if s != [] && IsSpace(s[|s| - 1]) then TrimEnd(s[..|s| - 1]) else s
  }

  /** Lowering changes exactly the letters A to Z, each to its lower-case
      letter, and leaves no upper-case letter. */
  lemma LowerSpec(s: string)
    ensures forall i :: 0 <= i < |s| ==>
      !IsUpper(Lower(s)[i]) &&
      (IsUpper(s[i]) ==> Lower(s)[i] as int == s[i] as int + 32) &&
      (!IsUpper(s[i]) ==> Lower(s)[i] == s[i])
  {
  }

  /** `BeforeParen(s)` is the longest prefix of `s` without a `(`: it stops at
      the first `(` or at the end. */
  lemma {:induction false} BeforeParenSpec(s: string)
    ensures BeforeParen(s) <= s
    ensures '(' !in BeforeParen(s)
    ensures |BeforeParen(s)| == |s| || s[|BeforeParen(s)|] == '('
  {
    if s != [] && s[0] != '(' {
      BeforeParenSpec(s[1..]);
    }
  }

  /** `TrimStart` removes the leading whitespace and nothing else. */
  lemma {:induction false} TrimStartSpec(s: string)
    ensures |TrimStart(s)| <= |s| && TrimStart(s) == s[|s| - |TrimStart(s)|..]
    ensures forall i :: 0 <= i < |s| - |TrimStart(s)| ==> IsSpace(s[i])
    ensures TrimStart(s) == [] || !IsSpace(TrimStart(s)[0])
  {
    if s != [] && IsSpace(s[0]) {
      var t := s[1..];
      TrimStartSpec(t);
      var n := |s| - |TrimStart(s)|;
      assert TrimStart(s) == TrimStart(t);
      assert t[n - 1..] == s[n..];
      forall i | 0 < i < n ensures IsSpace(s[i]) {
        assert s[i] == t[i - 1];
      }
    }
  }

  /** `TrimEnd` removes the trailing whitespace and nothing else. */
  lemma {:induction false} TrimEndSpec(s: string)
    ensures TrimEnd(s) <= s
    ensures forall i :: |TrimEnd(s)| <= i < |s| ==> IsSpace(s[i])
    ensures TrimEnd(s) == [] || !IsSpace(TrimEnd(s)[|TrimEnd(s)| - 1])
  {
    if s != [] && IsSpace(s[|s| - 1]) {
      TrimEndSpec(s[..|s| - 1]);
    }
  }

  /** `s.strip()`. */
  function Strip(s: string): string
  {
    TrimEnd(TrimStart(s))
  }

  /** The shopping-list key of an ingredient name. */
  function Normalize(name: string): string
  {
    Lower(Strip(BeforeParen(name)))
  }

  /** `Strip` keeps a contiguous run of `s` and removes only whitespace. */
  lemma StripSlice(s: string)
    ensures exists i, j :: (0 <= i <= j <= |s| && Strip(s) == s[i..j] &&
                            (forall k :: 0 <= k < i ==> IsSpace(s[k])) &&
                            (forall k :: j <= k < |s| ==> IsSpace(s[k])))
    ensures Strip(s) == [] || (!IsSpace(Strip(s)[0]) && !IsSpace(Strip(s)[|Strip(s)| - 1]))
  {
    var t := TrimStart(s);
    TrimStartSpec(s);
    TrimEndSpec(t);
    var i := |s| - |t|;
    var j := i + |TrimEnd(t)|;
    assert Strip(s) == s[i..j];
    forall k | j <= k < |s| ensures IsSpace(s[k]) {
      assert s[k] == t[k - i];
    }
  }

  /** A normalised name has no `(`, no whitespace at either end and no
      upper-case letter. */
  lemma NormalizeShape(name: string)
    ensures '(' !in Normalize(name)
    ensures Normalize(name) == [] ||
      (!IsSpace(Normalize(name)[0]) && !IsSpace(Normalize(name)[|Normalize(name)| - 1]))
    ensures forall i :: 0 <= i < |Normalize(name)| ==> !IsUpper(Normalize(name)[i])
  {
    var b := BeforeParen(name);
    var t := Strip(b);
    BeforeParenSpec(name);
    StripSlice(b);
    LowerSpec(t);
    var r := Normalize(name);
    forall i | 0 <= i < |r| ensures r[i] != '(' {
      assert t[i] in b;
    }
    if r != [] {
      assert r[0] == LowerChar(t[0]);
      assert r[|r| - 1] == LowerChar(t[|t| - 1]);
    }
  }

  /** Normalising a normalised name changes nothing. */
  lemma NormalizeIdempotent(name: string)
    ensures Normalize(Normalize(name)) == Normalize(name)
  {
    var r := Normalize(name);
    NormalizeShape(name);
    NoParenUnchanged(r);
    NoEdgeSpaceUnchanged(r);
    LowerSpec(r);
    assert Lower(r) == r;
  }

  lemma {:induction false} NoParenUnchanged(s: string)
    requires '(' !in s
    ensures BeforeParen(s) == s
  {
    if s != [] {
      NoParenUnchanged(s[1..]);
    }
  }

  lemma NoEdgeSpaceUnchanged(s: string)
    requires s == [] || (!IsSpace(s[0]) && !IsSpace(s[|s| - 1]))
    ensures Strip(s) == s
  {
  }

  /** Python's `sub in s`: `sub` occurs in `s` at some position. */
  function Contains(s: string, sub: string): bool
  {
    (|sub| <= |s| && s[..|sub|] == sub) || (s != [] && Contains(s[1..], sub))
  }

  /** `sub` is the slice of `s` that starts at offset `i`. */
  predicate OccursAt(s: string, sub: string, i: int)
  {
    0 <= i <= |s| - |sub| && s[i..i + |sub|] == sub
  }

  /** `Contains` holds exactly when `sub` is the slice of `s` at some offset. */
  lemma {:induction false} ContainsIff(s: string, sub: string)
    ensures Contains(s, sub) <==> exists i :: OccursAt(s, sub, i)
  {
    if s != [] {
      ContainsIff(s[1..], sub);
      if |sub| <= |s| && s[..|sub|] == sub {
        assert OccursAt(s, sub, 0);
      }
      if Contains(s[1..], sub) {
        var i :| OccursAt(s[1..], sub, i);
        assert OccursAt(s, sub, i + 1);
      }
      if exists i :: OccursAt(s, sub, i) {
        var i :| OccursAt(s, sub, i);
        if i > 0 {
          assert OccursAt(s[1..], sub, i - 1);
        } else {
          assert s[..|sub|] == sub;
        }
      }
    } else {
      if Contains(s, sub) {
        assert OccursAt(s, sub, 0);
      }
      if exists i :: OccursAt(s, sub, i) {
        var i :| OccursAt(s, sub, i);
        assert s[..|sub|] == sub;
      }
    }
  }

  /** The empty string occurs in every string. */
  lemma ContainsEmpty(s: string)
    ensures Contains(s, [])
  {
  }

  lemma {:induction false} BeforeFirstParen(a: string, b: string)
    requires '(' !in a
    ensures BeforeParen(a + "(" + b) == a
  {
    if a != [] {
      assert (a + "(" + b)[1..] == a[1..] + "(" + b;
      BeforeFirstParen(a[1..], b);
    }
  }

  lemma EggsBeforeParen()
    ensures BeforeParen("Eggs (large)") == "Eggs "
  {
    assert "Eggs (large)" == "Eggs " + "(" + "large)";
    BeforeFirstParen("Eggs ", "large)");
  }

  lemma EggsStrip()
    ensures Strip("Eggs ") == "Eggs"
  {
    assert TrimStart("Eggs ") == "Eggs ";
    assert TrimEnd("Eggs ") == TrimEnd("Eggs") == "Eggs";
  }

  lemma NormalizeEggs()
    ensures Normalize("Eggs (large)") == "eggs"
  {
    EggsBeforeParen();
    EggsStrip();
    assert Lower("Eggs") == "eggs";
  }

  lemma NormalizeSalt()
    ensures Normalize("Salt") == "salt"
  {
    NoParenUnchanged("Salt");
    NoEdgeSpaceUnchanged("Salt");
    assert Lower("Salt") == "salt";
  }
}
