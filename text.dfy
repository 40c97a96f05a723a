/**
 * String helpers used by the service and the seeders: `String.prototype.trim`,
 * `String.prototype.toLowerCase` (both restricted to ASCII), the seeders'
 * `toLookupKey`, and decimal rendering of ids inside messages.
 */
module Text {

  /** ASCII whitespace as `trim` removes it: space, tab, LF, VT, FF, CR. */
  predicate IsWhitespace(c: char) {
    c == ' ' || c == '\t' || c == '\n' || c == '\U{000B}' || c == '\U{000C}' || c == '\r'
  }

  predicate AllWhitespace(s: string) {
    forall i :: 0 <= i < |s| ==> IsWhitespace(s[i])
  }

  /** Drops leading whitespace (`TrimStartSpec` says what is left). */
  function TrimStart(s: string): (r: string)
    ensures |r| <= |s|
  {
    if s != [] && IsWhitespace(s[0]) then TrimStart(s[1..]) else s
  }

  /** What `TrimStart` leaves is a suffix of `s`, what it drops is whitespace, and
      what it leaves does not start with whitespace. */
  lemma {:induction false} TrimStartSpec(s: string)
    ensures var r := TrimStart(s);
      && r == s[|s| - |r|..]
      && AllWhitespace(s[..|s| - |r|])
      && (r == [] || !IsWhitespace(r[0]))
  {
    if s != [] && IsWhitespace(s[0]) {
      TrimStartSpec(s[1..]);
      var r := TrimStart(s);
      var k := |s| - |r|;
      assert s[1..][|s| - 1 - |r|..] == s[k..];
      assert s[..k] == [s[0]] + s[1..][..k - 1];
    }
  }

  /** Drops trailing whitespace (`TrimEndSpec` says what is left). */
  function TrimEnd(s: string): (r: string)
    ensures |r| <= |s|
  {
    if s != [] && IsWhitespace(s[|s| - 1]) then TrimEnd(s[..|s| - 1]) else s
  }

  /** What `TrimEnd` leaves is a prefix of `s`, what it drops is whitespace, and
      what it leaves does not end with whitespace. */
  lemma {:induction false} TrimEndSpec(s: string)
    ensures var r := TrimEnd(s);
      && r == s[..|r|]
      && AllWhitespace(s[|r|..])
      && (r == [] || !IsWhitespace(r[|r| - 1]))
  {
    if s != [] && IsWhitespace(s[|s| - 1]) {
      var n := |s| - 1;
      TrimEndSpec(s[..n]);
      var r := TrimEnd(s);
      assert s[..n][..|r|] == s[..|r|];
      assert forall i :: |r| <= i < n ==> s[..n][|r|..][i - |r|] == s[i];
    }
  }

  function Trim(s: string): string {
    TrimEnd(TrimStart(s))
  }

  /** `s.trim().length === 0` holds exactly when every character is whitespace. */
  lemma BlankIffAllWhitespace(s: string)
    ensures |Trim(s)| == 0 <==> AllWhitespace(s)
  {
    var a := TrimStart(s);
    var k := |s| - |a|;
    var r := TrimEnd(a);
    TrimStartSpec(s);
    TrimEndSpec(a);
    assert a == [] || a[0] == s[k];
    if |r| == 0 {
      assert a[|r|..] == a;
      assert a == [];
      assert s == s[..k];
    }
  }

  function LowerChar(c: char): (r: char)
    ensures IsWhitespace(r) <==> IsWhitespace(c)
    ensures 'A' <= c <= 'Z' ==> 'a' <= r <= 'z' && r as int == c as int + 32
    ensures !('A' <= c <= 'Z') ==> r == c
  {
    if 'A' <= c <= 'Z' then (c as int + 32) as char else c
  }

  /** ASCII `toLowerCase`: character by character, upper-case letters become lower-case. */
  function ToLower(s: string): (r: string)
    ensures |r| == |s|
  {
    if s == [] then [] else [LowerChar(s[0])] + ToLower(s[1..])
  }

  /** Each character is lower-cased on its own. */
  lemma {:induction false} ToLowerSpec(s: string)
    ensures forall i :: 0 <= i < |s| ==> ToLower(s)[i] == LowerChar(s[i])
  {
    if s != [] {
      ToLowerSpec(s[1..]);
      assert forall i :: 1 <= i < |s| ==> s[1..][i - 1] == s[i];
    }
  }

  /** The seeders' `toLookupKey`: trim, then lower-case. */
  function LookupKey(s: string): string {
    ToLower(Trim(s))
  }

  lemma {:induction false} ToLowerAppend(a: string, b: string)
    ensures ToLower(a + b) == ToLower(a) + ToLower(b)
  {
    var l, r := ToLower(a + b), ToLower(a) + ToLower(b);
    ToLowerSpec(a + b);
    ToLowerSpec(a);
    ToLowerSpec(b);
    assert |l| == |r|;
    forall i | 0 <= i < |l| ensures l[i] == r[i] {
      if i < |a| { assert (a + b)[i] == a[i]; } else { assert (a + b)[i] == b[i - |a|]; }
    }
  }

  lemma {:induction false} TrimStartToLower(s: string)
    ensures TrimStart(ToLower(s)) == ToLower(TrimStart(s))
  {
    if s != [] {
      assert ToLower(s)[1..] == ToLower(s[1..]);
      if IsWhitespace(s[0]) {
        TrimStartToLower(s[1..]);
      }
    }
  }

  lemma {:induction false} TrimEndToLower(s: string)
    ensures TrimEnd(ToLower(s)) == ToLower(TrimEnd(s))
  {
    if s != [] {
      var n := |s| - 1;
      assert s == s[..n] + [s[n]];
      ToLowerAppend(s[..n], [s[n]]);
      assert ToLower(s)[..n] == ToLower(s[..n]);
      if IsWhitespace(s[n]) {
        TrimEndToLower(s[..n]);
      }
    }
  }

  /** Trimming and lower-casing commute, since lower-casing never touches whitespace. */
  lemma LookupKeyLowersFirst(s: string)
    ensures LookupKey(s) == Trim(ToLower(s))
  {
    TrimStartToLower(s);
    TrimEndToLower(TrimStart(s));
  }

  /** Names that differ only in letter case have the same lookup key. */
  lemma LookupKeyIgnoresCase(a: string, b: string)
    requires ToLower(a) == ToLower(b)
    ensures LookupKey(a) == LookupKey(b)
  {
    LookupKeyLowersFirst(a);
    LookupKeyLowersFirst(b);
  }

  lemma {:induction false} TrimStartSkipsWhitespacePrefix(p: string, s: string)
    requires AllWhitespace(p)
    ensures TrimStart(p + s) == TrimStart(s)
  {
    if p != [] {
      assert (p + s)[0] == p[0] && IsWhitespace(p[0]);
      assert (p + s)[1..] == p[1..] + s;
      TrimStartSkipsWhitespacePrefix(p[1..], s);
    } else {
      assert p + s == s;
    }
  }

  lemma {:induction false} TrimEndSkipsWhitespaceSuffix(s: string, q: string)
    requires AllWhitespace(q)
    ensures TrimEnd(s + q) == TrimEnd(s)
  {
    if q != [] {
      var n := |q| - 1;
      assert (s + q)[|s + q| - 1] == q[n] && IsWhitespace(q[n]);
      assert (s + q)[..|s + q| - 1] == s + q[..n];
      TrimEndSkipsWhitespaceSuffix(s, q[..n]);
    } else {
      assert s + q == s;
    }
  }

  lemma {:induction false} TrimStartIdempotent(s: string)
    ensures TrimStart(TrimStart(s)) == TrimStart(s)
  {
    TrimStartSpec(s);
  }

  lemma TrimEndOfTrimmedStart(s: string)
    requires s == [] || !IsWhitespace(s[0])
    ensures var r := TrimEnd(s); r == [] || (!IsWhitespace(r[0]) && !IsWhitespace(r[|r| - 1]))
  {
    var r := TrimEnd(s);
    TrimEndSpec(s);
    if r != [] { assert r[0] == s[0]; }
  }

  /** Surrounding whitespace does not change the lookup key. */
  lemma LookupKeyIgnoresSurroundingWhitespace(p: string, s: string, q: string)
    requires AllWhitespace(p) && AllWhitespace(q)
    ensures LookupKey(p + s + q) == LookupKey(s)
  {
    TrimStartSkipsWhitespacePrefix(p, s + q);
    assert p + s + q == p + (s + q);
    var a := TrimStart(s);
    var k := |s| - |a|;
    TrimStartSpec(s);
    assert s == s[..k] + a;
    assert s + q == s[..k] + (a + q);
    TrimStartSkipsWhitespacePrefix(s[..k], a + q);
    if a == [] {
      assert a + q == q;
      TrimStartSkipsWhitespacePrefix(q, []);
      assert q + [] == q;
      assert TrimStart([]) == [];
    } else {
      assert (a + q)[0] == a[0];
      TrimEndSkipsWhitespaceSuffix(a, q);
    }
  }

  /** A lookup key is its own lookup key. */
  lemma LookupKeyIdempotent(s: string)
    ensures LookupKey(LookupKey(s)) == LookupKey(s)
  {
    var t := Trim(s);
    TrimStartSpec(s);
    TrimEndOfTrimmedStart(TrimStart(s));
    TrimmedIsFixed(t);
    LookupKeyLowersFirst(t);
    var lt := ToLower(t);
    assert Trim(lt) == lt;
    ToLowerIdempotent(t);
    assert LookupKey(lt) == ToLower(lt);
  }

  lemma ToLowerIdempotent(s: string)
    ensures ToLower(ToLower(s)) == ToLower(s)
  {
    var l := ToLower(s);
    ToLowerSpec(s);
    ToLowerSpec(l);
    assert forall i | 0 <= i < |s| :: ToLower(l)[i] == l[i];
  }

  lemma TrimmedIsFixed(t: string)
    requires t == [] || (!IsWhitespace(t[0]) && !IsWhitespace(t[|t| - 1]))
    ensures Trim(t) == t
  {
  }

  function DigitChar(d: nat): char
    requires d < 10
  {
    ('0' as int + d) as char
  }

  /** Decimal rendering of a natural number, as a template literal prints it. */
  function NatToString(n: nat): (r: string)
    ensures |r| >= 1
    ensures forall i :: 0 <= i < |r| ==> '0' <= r[i] <= '9'
    ensures (r[0] == '0') <==> n == 0
  {
    if n < 10 then [DigitChar(n)] else NatToString(n / 10) + [DigitChar(n % 10)]
  }

  /** The number a string of decimal digits denotes. */
  function DecimalValue(s: string): nat
    requires forall i :: 0 <= i < |s| ==> '0' <= s[i] <= '9'
  {
    if s == [] then 0 else DecimalValue(s[..|s| - 1]) * 10 + (s[|s| - 1] as int - '0' as int)
  }

  /** Reading the rendering back gives the number. */
  lemma {:induction false} NatToStringValue(n: nat)
    ensures DecimalValue(NatToString(n)) == n
  {
    if n >= 10 {
      var p := NatToString(n / 10);
      assert (p + [DigitChar(n % 10)])[..|p|] == p;
      NatToStringValue(n / 10);
    }
  }

  /** Different ids render differently, so a message names exactly one id. */
  lemma NatToStringInjective(m: nat, n: nat)
    ensures NatToString(m) == NatToString(n) <==> m == n
  {
    NatToStringValue(m);
    NatToStringValue(n);
  }
}
