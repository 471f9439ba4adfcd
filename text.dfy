/**
 * The string operations the script compiler applies to one line: Python's
 * `str.strip()`, `re.split(r"[,\W+]", ...)`, `str.replace(p, "")` together
 * with the `p in s` test guarding it, and `int(...)` on a field.
 */
module Text {
  import opened Wrappers

  /** A character matched by `\w`: ASCII letter, digit or underscore. */
  predicate IsWordChar(c: char) {
    ('a' <= c <= 'z') || ('A' <= c <= 'Z') || ('0' <= c <= '9') || c == '_'
  }

  /** A character that Python's `str.strip()` removes (`str.isspace()`). */
  predicate IsSpace(c: char) {
    || c == ' '
    || ('\U{9}' <= c <= '\U{d}')
    || ('\U{1c}' <= c <= '\U{1f}')
    || c == '\U{85}' || c == '\U{a0}' || c == '\U{1680}'
    || ('\U{2000}' <= c <= '\U{200a}')
    || c == '\U{2028}' || c == '\U{2029}' || c == '\U{202f}' || c == '\U{205f}' || c == '\U{3000}'
  }

  predicate AllWord(s: string) {
    forall k :: 0 <= k < |s| ==> IsWordChar(s[k])
  }

  predicate AllSpace(s: string) {
    forall k :: 0 <= k < |s| ==> IsSpace(s[k])
  }

  // ---------------------------------------------------------------------------
  // str.strip()

  /** Number of whitespace characters at the start of `s`. */
  function LeadingSpace(s: string): (n: nat)
    ensures n <= |s|
    ensures forall k :: 0 <= k < n ==> IsSpace(s[k])
    ensures n < |s| ==> !IsSpace(s[n])
  {
    if s == [] || !IsSpace(s[0]) then 0 else 1 + LeadingSpace(s[1..])
  }

  /** Number of whitespace characters at the end of `s`. */
  function TrailingSpace(s: string): (n: nat)
    ensures n <= |s|
    ensures forall k :: |s| - n <= k < |s| ==> IsSpace(s[k])
    ensures n < |s| ==> !IsSpace(s[|s| - 1 - n])
  {
    if s == [] || !IsSpace(s[|s| - 1]) then 0 else 1 + TrailingSpace(s[..|s| - 1])
  }

  /**
   * The slice `s[lo..hi]` that `s.strip()` keeps: everything outside it is
   * whitespace, and when it is not empty it starts and ends with a
   * non-whitespace character.
   */
  function StripRange(s: string): (r: (nat, nat))
    ensures r.0 <= r.1 <= |s|
    ensures forall k :: 0 <= k < r.0 ==> IsSpace(s[k])
    ensures forall k :: r.1 <= k < |s| ==> IsSpace(s[k])
    ensures r.0 < r.1 ==> !IsSpace(s[r.0]) && !IsSpace(s[r.1 - 1])
    ensures r.0 == r.1 <==> AllSpace(s)
  {
    var lo := LeadingSpace(s);
    var rest := s[lo..];
    var n := TrailingSpace(rest);
    assert lo < |s| ==> rest[0] == s[lo] && n < |rest|;
    assert forall k :: |s| - n <= k < |s| ==> s[k] == rest[k - lo];
    (lo, |s| - n)
  }

  function Strip(s: string): string {
    s[StripRange(s).0..StripRange(s).1]
  }

  // ---------------------------------------------------------------------------
  // re.split(r"[,\W+]", s): every single comma or non-word character separates

  /**
   * The fields of `s`, cut at every non-word character. Runs of separators
   * produce empty fields, and there is always at least one field.
   */
  function Split(s: string): (parts: seq<string>)
    ensures |parts| >= 1
    ensures forall k :: 0 <= k < |parts| ==> AllWord(parts[k])
  {
    if s == [] then [[]]
    else
      var rest := Split(s[1..]);
      if IsWordChar(s[0]) then [[s[0]] + rest[0]] + rest[1..]
      else [[]] + rest
  }

  /** The separator characters of `s`, in order. */
  function Separators(s: string): (seps: seq<char>)
    ensures forall k :: 0 <= k < |seps| ==> !IsWordChar(seps[k])
  {
    if s == [] then []
    else (if IsWordChar(s[0]) then [] else [s[0]]) + Separators(s[1..])
  }

  /** Joins fields back together, putting `seps[k]` between `parts[k]` and `parts[k + 1]`. */
  function Interleave(parts: seq<string>, seps: seq<char>): string
    requires |parts| == |seps| + 1
    decreases |seps|
  {
    if seps == [] then parts[0]
    else parts[0] + [seps[0]] + Interleave(parts[1..], seps[1..])
  }

  /** There is one more field than there are separator characters. */
  lemma {:induction false} SplitCount(s: string)
    ensures |Split(s)| == |Separators(s)| + 1
  {
    if s != [] {
      SplitCount(s[1..]);
    }
  }

  /** Putting the separators back between the fields gives the line back. */
  lemma {:induction false} SplitRoundTrip(s: string)
    ensures |Split(s)| == |Separators(s)| + 1
    ensures Interleave(Split(s), Separators(s)) == s
  {
    if s != [] {
      SplitRoundTrip(s[1..]);
      var rest := Split(s[1..]);
      var seps := Separators(s[1..]);
      if IsWordChar(s[0]) {
        var parts := Split(s);
        assert parts[0] == [s[0]] + rest[0] && parts[1..] == rest[1..];
        assert Separators(s) == seps;
        if seps != [] {
          calc {
            Interleave(parts, seps);
            parts[0] + [seps[0]] + Interleave(parts[1..], seps[1..]);
            [s[0]] + (rest[0] + [seps[0]] + Interleave(rest[1..], seps[1..]));
            [s[0]] + Interleave(rest, seps);
          }
        }
        assert s == [s[0]] + s[1..];
      } else {
        assert Split(s) == [[]] + rest && Separators(s) == [s[0]] + seps;
        assert (([[]] + rest)[1..]) == rest;
        assert s == [] + [s[0]] + s[1..];
      }
    }
  }

  /** A word glued in front of `t` extends the first field of `t`. */
  lemma {:induction false} SplitWordPrefix(w: string, t: string)
    requires AllWord(w)
    ensures Split(w + t) == [w + Split(t)[0]] + Split(t)[1..]
  {
    if w == [] {
      var st := Split(t);
      assert w + t == t && w + st[0] == st[0];
      assert st == [st[0]] + st[1..];
    } else {
      assert (w + t)[1..] == w[1..] + t;
      SplitWordPrefix(w[1..], t);
      assert [w[0]] + (w[1..] + Split(t)[0]) == w + Split(t)[0];
    }
  }

  /**
   * Conversely, word-only fields joined by non-word characters split back
   * into exactly those fields, so `Split` is the only such decomposition.
   */
  lemma {:induction false} SplitInterleave(parts: seq<string>, seps: seq<char>)
    requires |parts| == |seps| + 1
    requires forall k :: 0 <= k < |parts| ==> AllWord(parts[k])
    requires forall k :: 0 <= k < |seps| ==> !IsWordChar(seps[k])
    ensures Split(Interleave(parts, seps)) == parts
    decreases |seps|
  {
    if seps == [] {
      SplitWordPrefix(parts[0], []);
      assert parts[0] + [] == parts[0];
      assert parts == [parts[0]];
    } else {
      var tail := Interleave(parts[1..], seps[1..]);
      SplitInterleave(parts[1..], seps[1..]);
      var t := [seps[0]] + tail;
      assert t[1..] == tail;
      assert Split(t) == [[]] + parts[1..];
      assert Split(t)[0] == [] && Split(t)[1..] == parts[1..];
      SplitWordPrefix(parts[0], t);
      assert parts[0] + [seps[0]] + tail == parts[0] + t;
      assert parts[0] + [] == parts[0];
      assert parts == [parts[0]] + parts[1..];
    }
  }

  // ---------------------------------------------------------------------------
  // `p in s` and s.replace(p, "")

  predicate OccursAt(s: string, p: string, k: nat) {
    k + |p| <= |s| && s[k..k + |p|] == p
  }

  predicate Contains(s: string, p: string) {
    exists k: nat :: k <= |s| && OccursAt(s, p, k)
  }

  /**
   * `s.replace(p, "")`: scanning left to right, every occurrence of `p` that
   * does not overlap an earlier removed one is deleted.
   */
  function RemoveAll(s: string, p: string): (r: string)
    requires |p| > 0
    ensures |r| <= |s|
    decreases |s|
  {
    if |s| < |p| then s
    else if s[..|p|] == p then RemoveAll(s[|p|..], p)
    else [s[0]] + RemoveAll(s[1..], p)
  }

  /** When `p` occurs in `s`, at least `|p|` characters are removed. */
  lemma {:induction false} RemoveAllShrinks(s: string, p: string)
    requires |p| > 0 && Contains(s, p)
    ensures |RemoveAll(s, p)| + |p| <= |s|
    decreases |s|
  {
    var k: nat :| k <= |s| && OccursAt(s, p, k);
    if s[..|p|] != p {
      assert k != 0;
      assert OccursAt(s[1..], p, k - 1) by {
        assert s[1..][k - 1..k - 1 + |p|] == s[k..k + |p|];
      }
      RemoveAllShrinks(s[1..], p);
    }
  }

  /** A string without `p` is left as it is. */
  lemma {:induction false} RemoveAllAbsent(s: string, p: string)
    requires |p| > 0 && !Contains(s, p)
    ensures RemoveAll(s, p) == s
    decreases |s|
  {
    if |s| >= |p| {
      assert !OccursAt(s, p, 0);
      assert s[..|p|] == s[0..0 + |p|];
      forall k: nat | OccursAt(s[1..], p, k) ensures OccursAt(s, p, k + 1) {
        assert s[k + 1..k + 1 + |p|] == s[1..][k..k + |p|];
      }
      RemoveAllAbsent(s[1..], p);
      assert s == [s[0]] + s[1..];
    }
  }

  lemma OccursAtTail(s: string, p: string, k: nat)
    requires |s| > 0
    ensures OccursAt(s[1..], p, k) <==> OccursAt(s, p, k + 1)
  {
    if k + 1 + |p| <= |s| {
      assert s[1..][k..k + |p|] == s[k + 1..k + 1 + |p|];
    }
  }

  /** `p` occurs in `s` at `i` and nowhere before. */
  predicate LeftmostAt(s: string, p: string, i: nat) {
    OccursAt(s, p, i) && forall k: nat :: k < i ==> !OccursAt(s, p, k)
  }

  /** The leftmost occurrence at `i > 0` of `s` is the leftmost at `i - 1` of `s[1..]`. */
  lemma LeftmostInTail(s: string, p: string, i: nat)
    requires 0 < i && LeftmostAt(s, p, i)
    ensures LeftmostAt(s[1..], p, i - 1)
  {
    OccursAtTail(s, p, i - 1);
    forall k: nat | k < i - 1 ensures !OccursAt(s[1..], p, k) {
      OccursAtTail(s, p, k);
    }
  }

  /** An occurrence at the very start is deleted. */
  lemma RemoveAllAtStart(s: string, p: string)
    requires |p| > 0 && OccursAt(s, p, 0)
    ensures RemoveAll(s, p) == RemoveAll(s[|p|..], p)
  {
    assert s[..|p|] == s[0..0 + |p|];
  }

  /** A first character that starts no occurrence is kept. */
  lemma RemoveAllKeepsFirst(s: string, p: string)
    requires |p| > 0 && |p| <= |s| && !OccursAt(s, p, 0)
    ensures RemoveAll(s, p) == [s[0]] + RemoveAll(s[1..], p)
  {
    assert s[..|p|] == s[0..0 + |p|];
  }

  /** What follows position `i - 1` of `s[1..]` is what follows position `i` of `s`. */
  lemma TailSuffix(s: string, i: nat, n: nat)
    requires 0 < i && i + n <= |s|
    ensures s[1..][i - 1 + n..] == s[i + n..]
  {
  }

  /** A result that keeps `s[0]` before one that keeps `s[1..i]` keeps `s[..i]`. */
  lemma KeptPrefix(s: string, i: nat, whole: string, tail: string, rest: string)
    requires 0 < i <= |s|
    requires whole == [s[0]] + tail && tail == s[1..][..i - 1] + rest
    ensures whole == s[..i] + rest
  {
    assert [s[0]] + s[1..][..i - 1] == s[..i];
  }

  /**
   * `RemoveAllLeftmost`, with the leftmost occurrence given by its position
   * `i` in `s` and `t` the rest of `s` after it.
   */
  lemma {:induction false} RemoveAllAt(s: string, p: string, i: nat, t: string)
    requires |p| > 0 && LeftmostAt(s, p, i) && t == s[i + |p|..]
    ensures RemoveAll(s, p) == s[..i] + RemoveAll(t, p)
    decreases i
  {
    if i == 0 {
      assert OccursAt(s, p, 0);
      RemoveAllAtStart(s, p);
      assert s[..0] == [];
    } else {
      assert !OccursAt(s, p, 0);
      RemoveAllKeepsFirst(s, p);
      LeftmostInTail(s, p, i);
      TailSuffix(s, i, |p|);
      RemoveAllAt(s[1..], p, i - 1, t);
      KeptPrefix(s, i, RemoveAll(s, p), RemoveAll(s[1..], p), RemoveAll(t, p));
    }
  }

  /**
   * The leftmost occurrence of `p` is deleted and the scan resumes right
   * after it. With `RemoveAllAbsent` this fixes `RemoveAll` on every input:
   * each occurrence found left to right, never overlapping one already
   * removed, is deleted, as `str.replace` does.
   */
  lemma RemoveAllLeftmost(a: string, b: string, p: string)
    requires |p| > 0
    requires forall k :: 0 <= k < |a| ==> !OccursAt(a + p + b, p, k)
    ensures RemoveAll(a + p + b, p) == a + RemoveAll(b, p)
  {
    var s := a + p + b;
    assert s[|a|..|a| + |p|] == p;
    assert LeftmostAt(s, p, |a|);
    RemoveAllAt(s, p, |a|, b);
    assert s[..|a|] == a && s[|a| + |p|..] == b;
  }

  /**
   * The `p in s` guard in front of `s.replace(p, "")` changes nothing:
   * replacing leaves `s` unchanged exactly when `p` does not occur in it.
   */
  lemma RemoveAllUnchangedIff(s: string, p: string)
    requires |p| > 0
    ensures RemoveAll(s, p) == s <==> !Contains(s, p)
  {
    if Contains(s, p) {
      RemoveAllShrinks(s, p);
    } else {
      RemoveAllAbsent(s, p);
    }
  }

  // ---------------------------------------------------------------------------
  // int(field) in base 10, for a field made of word characters only

  predicate IsDigit(c: char) {
    '0' <= c <= '9'
  }

  /**
   * The fields Python's `int()` accepts: one or more digits, groups
   * separated by single underscores (`1_000`), no leading or trailing
   * underscore. A field holds no sign and no whitespace, as both are
   * separators.
   */
  predicate IsIntLiteral(s: string) {
    && |s| > 0
    && IsDigit(s[0])
    && IsDigit(s[|s| - 1])
    && (forall k :: 0 <= k < |s| ==> IsDigit(s[k]) || s[k] == '_')
    && (forall k :: 0 <= k < |s| - 1 ==> IsDigit(s[k]) || IsDigit(s[k + 1]))
  }

  /** The digits of `s` with the underscores dropped. */
  function DigitsOf(s: string): string {
    if s == [] then [] else (if s[0] == '_' then [] else [s[0]]) + DigitsOf(s[1..])
  }

  function DigitValue(c: char): nat
    requires IsDigit(c)
  {
    (c as int - '0' as int) as nat
  }

  function DecimalValue(ds: string): nat
    requires forall k :: 0 <= k < |ds| ==> IsDigit(ds[k])
  {
    if ds == [] then 0 else DecimalValue(ds[..|ds| - 1]) * 10 + DigitValue(ds[|ds| - 1])
  }

  lemma {:induction false} DigitsOfDigits(s: string)
    requires forall k :: 0 <= k < |s| ==> IsDigit(s[k]) || s[k] == '_'
    ensures forall k :: 0 <= k < |DigitsOf(s)| ==> IsDigit(DigitsOf(s)[k])
  {
    if s != [] {
      DigitsOfDigits(s[1..]);
    }
  }

  lemma {:induction false} DigitsOfNoUnderscore(s: string)
    requires forall k :: 0 <= k < |s| ==> IsDigit(s[k])
    ensures DigitsOf(s) == s
  {
    if s != [] {
      DigitsOfNoUnderscore(s[1..]);
      assert s == [s[0]] + s[1..];
    }
  }

  /** `int(s)`: the value of the field, or `None` where Python raises `ValueError`. */
  function ParseInt(s: string): Option<nat> {
    if IsIntLiteral(s) then
      DigitsOfDigits(s);
      Some(DecimalValue(DigitsOf(s)))
    else None
  }

  function DigitChar(d: nat): (c: char)
    requires d < 10
    ensures IsDigit(c) && DigitValue(c) == d
  {
    ('0' as int + d) as char
  }

  /** `str(n)`: the decimal digits of `n`, without leading zeros. */
  function ShowNat(n: nat): (s: string)
    ensures |s| > 0
    ensures forall k :: 0 <= k < |s| ==> IsDigit(s[k])
  {
    if n < 10 then [DigitChar(n)] else ShowNat(n / 10) + [DigitChar(n % 10)]
  }

  /** Reading back the decimal form of a number gives the number. */
  lemma {:induction false} ParseShowRoundTrip(n: nat)
    ensures ParseInt(ShowNat(n)) == Some(n)
  {
    DecimalShow(n);
    DigitsOfNoUnderscore(ShowNat(n));
  }

  lemma {:induction false} DecimalShow(n: nat)
    ensures DecimalValue(ShowNat(n)) == n
  {
    if n >= 10 {
      DecimalShow(n / 10);
      var s := ShowNat(n);
      assert s[..|s| - 1] == ShowNat(n / 10);
    }
  }
}
