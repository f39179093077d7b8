/** String building used to name uploaded objects: Python's `str(i)` for a
    natural number, `template.format(i)` for a template with one `{}`
    placeholder, and `os.path.join` of two POSIX path components. */
module Paths {

  predicate IsDigit(c: char) {
    '0' <= c <= '9'
  }

  predicate AllDigits(s: string) {
    forall k :: 0 <= k < |s| ==> IsDigit(s[k])
  }

  function DigitChar(d: nat): (c: char)
    requires d < 10
    ensures IsDigit(c) && c as int - '0' as int == d
  {
    ('0' as int + d) as char
  }

  /** Decimal representation of `n` without leading zeros, as `str(n)`. */
  function NatToString(n: nat): (s: string)
    ensures |s| >= 1 && AllDigits(s)
    ensures s[0] == '0' ==> n == 0
  {
    if n < 10 then [DigitChar(n)] else NatToString(n / 10) + [DigitChar(n % 10)]
  }

  /** The value of a string of decimal digits; the inverse of NatToString. */
  function ParseDecimal(s: string): nat
    requires AllDigits(s)
  {
    if s == [] then 0
    else ParseDecimal(s[..|s| - 1]) * 10 + (s[|s| - 1] as int - '0' as int)
  }

  lemma {:induction false} ParseNatToString(n: nat)
    ensures ParseDecimal(NatToString(n)) == n
  {
    if n >= 10 {
      var s := NatToString(n);
      assert s[..|s| - 1] == NatToString(n / 10);
      ParseNatToString(n / 10);
    }
  }

  /** Different part numbers give different decimal strings. */
  lemma NatToStringInjective(i: nat, j: nat)
    requires NatToString(i) == NatToString(j)
    ensures i == j
  {
    ParseNatToString(i);
    ParseNatToString(j);
  }

  /** A file-name template with a single `{}` placeholder: the text before
      the placeholder and the text after it (`'train_part{}.pbr'` is
      `Template("train_part", ".pbr")`). */
  datatype Template = Template(head: string, tail: string)

  /** `template.format(i)`. */
  function Format(t: Template, i: nat): (s: string)
    ensures |s| > |t.head| + |t.tail|
    ensures s[..|t.head|] == t.head && s[|s| - |t.tail|..] == t.tail
  {
    t.head + NatToString(i) + t.tail
  }

  lemma FormatInjective(t: Template, i: nat, j: nat)
    requires Format(t, i) == Format(t, j)
    ensures i == j
  {
    var a, b := Format(t, i), Format(t, j);
    assert NatToString(i) == a[|t.head|..|a| - |t.tail|];
    assert NatToString(j) == b[|t.head|..|b| - |t.tail|];
    NatToStringInjective(i, j);
  }

  predicate IsAbsolute(p: string) {
    |p| > 0 && p[0] == '/'
  }

  /** `os.path.join(a, b)` on POSIX: an absolute `b` replaces `a`; otherwise
      `b` is appended, with a `/` in between unless `a` is empty or already
      ends with one. */
  function Join(a: string, b: string): (r: string)
    ensures IsAbsolute(b) ==> r == b
    ensures !IsAbsolute(b) ==> |r| == |a| + |b| + (if a == [] || a[|a| - 1] == '/' then 0 else 1)
    ensures !IsAbsolute(b) ==> r[..|a|] == a && r[|r| - |b|..] == b
    ensures !IsAbsolute(b) && a != [] && a[|a| - 1] != '/' ==> r[|a|] == '/'
  {
    if IsAbsolute(b) then b
    else if a == [] || a[|a| - 1] == '/' then a + b
    else a + "/" + b
  }

  /** Joining onto the same directory keeps two relative names apart. */
  lemma JoinInjective(a: string, b1: string, b2: string)
    requires IsAbsolute(b1) == IsAbsolute(b2)
    requires Join(a, b1) == Join(a, b2)
    ensures b1 == b2
  {
    if !IsAbsolute(b1) {
      var r := Join(a, b1);
      assert |b1| == |b2|;
      assert b1 == r[|r| - |b1|..];
    }
  }

  /** The key under which part `i` is stored: `os.path.join(prefix, template.format(i))`. */
  function ObjectKey(prefix: string, t: Template, i: nat): string {
    Join(prefix, Format(t, i))
  }

  /** Distinct part numbers are stored under distinct keys, whatever the
      prefix and template. */
  lemma ObjectKeysDistinct(prefix: string, t: Template, i: nat, j: nat)
    requires i != j
    ensures ObjectKey(prefix, t, i) != ObjectKey(prefix, t, j)
  {
    var fi, fj := Format(t, i), Format(t, j);
    assert IsAbsolute(fi) == IsAbsolute(fj) by {
      if t.head == [] {
        assert fi[0] == NatToString(i)[0] && fj[0] == NatToString(j)[0];
      } else {
        assert fi[0] == t.head[0] == fj[0];
      }
    }
    if ObjectKey(prefix, t, i) == ObjectKey(prefix, t, j) {
      JoinInjective(prefix, fi, fj);
      FormatInjective(t, i, j);
    }
  }
}
