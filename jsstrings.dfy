/**
 * The JavaScript string operations the site's scripts rely on, over `seq<char>`:
 * `replace(/[$,]/g, '')`, `trim()`, `toLowerCase()`, `includes(...)` and `split(sep)[0]`.
 */
module JsStrings {
  import opened Seqs

  // ---------------------------------------------------------------------------
  // replace(/[$,]/g, '')

  /** The characters the price cleanup removes: the dollar sign and the comma. */
  predicate IsCurrencyMark(c: char) {
    c == '$' || c == ','
  }

  /** `price.replace(/[$,]/g, '')`: drops every `$` and `,`; digits, the decimal point and
      every other character stay. */
  function StripCurrency(s: string): (r: string)
    ensures |r| <= |s|
    ensures forall i :: 0 <= i < |r| ==> !IsCurrencyMark(r[i])
  {
    if s == [] then []
    else (if IsCurrencyMark(s[0]) then [] else [s[0]]) + StripCurrency(s[1..])
  }

  /** The cleanup keeps every other character, each as often as before and in the original order. */
  lemma {:induction false} StripCurrencyKeepsOthers(s: string)
    ensures IsSubsequence(StripCurrency(s), s)
    ensures forall c :: !IsCurrencyMark(c) ==> multiset(StripCurrency(s))[c] == multiset(s)[c]
    ensures forall c :: IsCurrencyMark(c) ==> multiset(StripCurrency(s))[c] == 0
    decreases |s|
  {
    if s != [] {
      StripCurrencyKeepsOthers(s[1..]);
      var r := StripCurrency(s);
      assert s == [s[0]] + s[1..];
      if IsCurrencyMark(s[0]) {
        assert r == StripCurrency(s[1..]);
      } else {
        assert r == [s[0]] + StripCurrency(s[1..]);
        assert r[0] == s[0] && r[1..] == StripCurrency(s[1..]);
      }
    }
  }

  /** The cleanup works character by character: it distributes over concatenation. */
  lemma {:induction false} StripCurrencyConcat(a: string, b: string)
    ensures StripCurrency(a + b) == StripCurrency(a) + StripCurrency(b)
    decreases |a|
  {
    if a == [] {
      assert a + b == b;
    } else {
      assert (a + b)[0] == a[0] && (a + b)[1..] == a[1..] + b;
      StripCurrencyConcat(a[1..], b);
    }
  }

  /** A string without `$` or `,` comes back unchanged; in particular the cleanup is idempotent. */
  lemma {:induction false} StripCurrencyClean(s: string)
    requires forall i :: 0 <= i < |s| ==> !IsCurrencyMark(s[i])
    ensures StripCurrency(s) == s
    decreases |s|
  {
    if s != [] {
      StripCurrencyClean(s[1..]);
    }
  }

  lemma StripCurrencyIdempotent(s: string)
    ensures StripCurrency(StripCurrency(s)) == StripCurrency(s)
  {
    StripCurrencyClean(StripCurrency(s));
  }

  /** A catalog-style price: only the currency marks go, the decimal part stays. */
  lemma StripCurrencyExample()
    ensures StripCurrency("$1,234.50") == "1234.50"
  {
    StripCurrencyConcat("$1,", "234.50");
    StripCurrencyClean("234.50");
  }

  // ---------------------------------------------------------------------------
  // trim()

  /** The code points `String.prototype.trim` removes: ECMAScript WhiteSpace and LineTerminator. */
  predicate IsJsSpace(c: char) {
    var n := c as int;
    n == 0x09 || n == 0x0A || n == 0x0B || n == 0x0C || n == 0x0D || n == 0x20 || n == 0xA0
    || n == 0x1680 || (0x2000 <= n <= 0x200A) || n == 0x2028 || n == 0x2029 || n == 0x202F
    || n == 0x205F || n == 0x3000 || n == 0xFEFF
  }

  predicate AllSpace(s: string) {
    forall i :: 0 <= i < |s| ==> IsJsSpace(s[i])
  }

  /** The position of the first non-space character at or after `from` (`|s|` when there is
      none): where the text kept by `trim()` starts. */
  function TrimFrom(s: string, from: nat): (k: nat)
    requires from <= |s|
    ensures from <= k <= |s|
    ensures forall i :: from <= i < k ==> IsJsSpace(s[i])
    ensures k < |s| ==> !IsJsSpace(s[k])
    decreases |s| - from
  {
    if from < |s| && IsJsSpace(s[from]) then TrimFrom(s, from + 1) else from
  }

  /** The position just after the last non-space character before `stop` and not before `lo`:
      where the text kept by `trim()` ends. */
  function TrimTo(s: string, lo: nat, stop: nat): (k: nat)
    requires lo <= stop <= |s|
    ensures lo <= k <= stop
    ensures forall i :: k <= i < stop ==> IsJsSpace(s[i])
    ensures k > lo ==> !IsJsSpace(s[k - 1])
    decreases stop
  {
    if stop > lo && IsJsSpace(s[stop - 1]) then TrimTo(s, lo, stop - 1) else stop
  }

  /** `s.trim()`: the text of `s` without its leading and trailing white space. */
  function Trim(s: string): (r: string)
    ensures |r| <= |s|
    ensures r != [] ==> !IsJsSpace(r[0]) && !IsJsSpace(r[|r| - 1])
    ensures r == [] <==> AllSpace(s)
  {
    var lo := TrimFrom(s, 0);
    s[lo..TrimTo(s, lo, |s|)]
  }

  /** `trim()` is determined by the text alone: any slice of `s` with only white space before
      it and after it, and with non-space characters at both of its ends (or empty, when `s` is
      all white space), is the trimmed text. */
  lemma TrimIsSlice(s: string, lo: nat, hi: nat)
    requires lo <= hi <= |s|
    requires forall i :: 0 <= i < lo ==> IsJsSpace(s[i])
    requires forall i :: hi <= i < |s| ==> IsJsSpace(s[i])
    requires lo < hi ==> !IsJsSpace(s[lo]) && !IsJsSpace(s[hi - 1])
    requires lo == hi ==> AllSpace(s)
    ensures Trim(s) == s[lo..hi]
  {
  }

  // ---------------------------------------------------------------------------
  // toLowerCase()

  predicate IsAsciiUpper(c: char) {
    'A' <= c <= 'Z'
  }

  function LowerChar(c: char): (d: char)
    ensures !IsAsciiUpper(d)
    ensures IsAsciiUpper(c) ==> d == (c as int + 32) as char
    ensures !IsAsciiUpper(c) ==> d == c
    ensures IsJsSpace(d) == IsJsSpace(c)
  {
    if IsAsciiUpper(c) then (c as int + 32) as char else c
  }

  /** `s.toLowerCase()` on the ASCII letters: same length, each upper-case letter replaced by
      its lower-case letter, every other character (white space in particular) where it was. */
  function ToLower(s: string): (r: string)
    ensures |r| == |s|
    ensures forall i :: 0 <= i < |r| ==> !IsAsciiUpper(r[i])
    ensures forall i :: 0 <= i < |r| ==> IsAsciiUpper(s[i]) ==> r[i] == (s[i] as int + 32) as char
    ensures forall i :: 0 <= i < |r| ==> !IsAsciiUpper(s[i]) ==> r[i] == s[i]
    ensures forall i :: 0 <= i < |r| ==> IsJsSpace(r[i]) == IsJsSpace(s[i])
  {
    seq(|s|, i requires 0 <= i < |s| => LowerChar(s[i]))
  }

  /** Lower-casing does not change whether a text is blank, so the guard on the raw input
      (`value.trim()`) and the term actually searched (`value.toLowerCase().trim()`) agree. */
  lemma TrimLowerBlank(s: string)
    ensures Trim(ToLower(s)) == [] <==> Trim(s) == []
  {
    var l := ToLower(s);
    assert AllSpace(l) <==> AllSpace(s) by {
      assert forall i :: 0 <= i < |s| ==> IsJsSpace(l[i]) == IsJsSpace(s[i]);
    }
  }

  // ---------------------------------------------------------------------------
  // includes(term)

  /** `t` occurs in `s` starting at position `i`. */
  predicate OccursAt(s: string, t: string, i: int) {
    0 <= i && i + |t| <= |s| && s[i..i + |t|] == t
  }

  /** `s.includes(t)`: some position of `s` starts an occurrence of `t`; the empty string
      occurs everywhere. */
  function Contains(s: string, t: string): (r: bool)
    ensures r <==> exists i :: OccursAt(s, t, i)
    decreases |s|
  {
    if |t| > |s| then false
    else if s[..|t|] == t then
      assert OccursAt(s, t, 0);
      true
    else
      var rest := Contains(s[1..], t);
      assert rest ==> exists i :: OccursAt(s, t, i) by {
        if rest {
          var i :| OccursAt(s[1..], t, i);
          assert s[1..][i..i + |t|] == s[i + 1..i + 1 + |t|];
          assert OccursAt(s, t, i + 1);
        }
      }
      assert (exists i :: OccursAt(s, t, i)) ==> rest by {
        if exists i :: OccursAt(s, t, i) {
          var i :| OccursAt(s, t, i);
          assert i != 0;
          assert s[1..][i - 1..i - 1 + |t|] == s[i..i + |t|];
          assert OccursAt(s[1..], t, i - 1);
        }
      }
      rest
  }

  // ---------------------------------------------------------------------------
  // split(sep)[0]

  /** `s.split(sep)[0]`: the part of `s` before the first `sep`, or all of `s` when there is none. */
  function BeforeFirst(s: string, sep: char): (r: string)
    ensures |r| <= |s| && r == s[..|r|]
    ensures sep !in r
    ensures |r| < |s| ==> s[|r|] == sep
  {
    if s == [] || s[0] == sep then [] else [s[0]] + BeforeFirst(s[1..], sep)
  }
}
