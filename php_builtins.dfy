/**
 * The PHP and WordPress string and array built-ins the modelled code relies on:
 * `empty()` on strings, `implode`, integer printing and MySQL's signed
 * conversion, `strtoupper`, `trailingslashit`/`untrailingslashit`, `ltrim`,
 * `basename`, `dirname` and `array_unique`.
 */
module PhpBuiltins {

  /** PHP's `empty()` on a string: only "" and "0" are empty. */
  predicate IsEmpty(s: string) {
    s == "" || s == "0"
  }

  // ---------------------------------------------------------------------------
  // implode / join

  /** `implode(sep, parts)`. */
  function Join(sep: string, parts: seq<string>): string
    decreases |parts|
  {
    if |parts| == 0 then ""
    else if |parts| == 1 then parts[0]
    else parts[0] + sep + Join(sep, parts[1..])
  }

  /** Joining one more part appends the separator and that part at the end. */
  lemma {:induction false} JoinSnoc(sep: string, parts: seq<string>, last: string)
    requires |parts| > 0
    ensures Join(sep, parts + [last]) == Join(sep, parts) + sep + last
    decreases |parts|
  {
    if |parts| == 1 {
      assert (parts + [last])[1..] == [last];
    } else {
      assert (parts + [last])[1..] == parts[1..] + [last];
      JoinSnoc(sep, parts[1..], last);
    }
  }

  // ---------------------------------------------------------------------------
  // Integers printed in decimal (`sprintf('%d')`, string interpolation) and read
  // back the way MySQL's CONVERT(..., SIGNED) reads a decimal prefix.

  predicate IsDigit(c: char) {
    '0' <= c <= '9'
  }

  function DigitChar(d: nat): (c: char)
    requires d < 10
    ensures IsDigit(c) && c as int - '0' as int == d
  {
    ('0' as int + d) as char
  }

  /** The decimal representation of a natural number, without leading zeros. */
  function NatToString(n: nat): (r: string)
    ensures |r| > 0 && forall i :: 0 <= i < |r| ==> IsDigit(r[i])
    decreases n
  {
    if n < 10 then [DigitChar(n)] else NatToString(n / 10) + [DigitChar(n % 10)]
  }

  /** PHP's conversion of an integer to a string. */
  function IntToString(i: int): (r: string)
    ensures |r| > 0
  {
    if i < 0 then "-" + NatToString(-i) else NatToString(i)
  }

  /** The value of a string of decimal digits. */
  function DecimalValue(ds: string): nat
    requires forall i :: 0 <= i < |ds| ==> IsDigit(ds[i])
    decreases |ds|
  {
    if |ds| == 0 then 0
    else
      assert IsDigit(ds[|ds| - 1]);
      DecimalValue(ds[..|ds| - 1]) * 10 + (ds[|ds| - 1] as int - '0' as int)
  }

  /** The longest prefix of `s` made of decimal digits. */
  function DigitPrefix(s: string): (r: string)
    ensures |r| <= |s| && r == s[..|r|]
    ensures forall i :: 0 <= i < |r| ==> IsDigit(r[i])
    ensures |r| < |s| ==> !IsDigit(s[|r|])
    decreases |s|
  {
    if |s| > 0 && IsDigit(s[0]) then [s[0]] + DigitPrefix(s[1..]) else ""
  }

  /** MySQL's CONVERT(s, SIGNED) on a string that starts with an optional '-' and digits;
      a string with no leading digits converts to 0. */
  function SignedValue(s: string): int {
    if |s| > 0 && s[0] == '-' then 0 - (DecimalValue(DigitPrefix(s[1..])) as int)
    else DecimalValue(DigitPrefix(s))
  }

  lemma {:induction false} DigitPrefixOfDigits(s: string)
    requires forall i :: 0 <= i < |s| ==> IsDigit(s[i])
    ensures DigitPrefix(s) == s
    decreases |s|
  {
    if |s| > 0 {
      DigitPrefixOfDigits(s[1..]);
      assert [s[0]] + s[1..] == s;
    }
  }

  lemma {:induction false} DecimalValueOfNatToString(n: nat)
    ensures DecimalValue(NatToString(n)) == n
    decreases n
  {
    var r := NatToString(n);
    if n >= 10 {
      DecimalValueOfNatToString(n / 10);
      assert r[..|r| - 1] == NatToString(n / 10);
    }
  }

  /** Reading back a printed integer gives the integer: the printed friend count of a
      member sorts by the number it prints. */
  lemma SignedValueOfIntToString(i: int)
    ensures SignedValue(IntToString(i)) == i
  {
    if i < 0 {
      var r := IntToString(i);
      assert r[1..] == NatToString(-i);
      DigitPrefixOfDigits(NatToString(-i));
      DecimalValueOfNatToString(-i);
    } else {
      var r := NatToString(i);
      assert r[0] != '-' by { assert IsDigit(r[0]); }
      DigitPrefixOfDigits(r);
      DecimalValueOfNatToString(i);
    }
  }

  // ---------------------------------------------------------------------------
  // strtoupper (ASCII)

  function UpperChar(c: char): char {
    if 'a' <= c <= 'z' then (c as int - 32) as char else c
  }

  /** `strtoupper`: ASCII letters are upper-cased, every other character is kept. */
  function Upper(s: string): (r: string)
    ensures |r| == |s|
  {
    seq(|s|, i requires 0 <= i < |s| => UpperChar(s[i]))
  }

  lemma UpperConcat(a: string, b: string)
    ensures Upper(a + b) == Upper(a) + Upper(b)
  {
    assert forall i :: 0 <= i < |a + b| ==> Upper(a + b)[i] == (Upper(a) + Upper(b))[i];
  }

  /** Upper-cases every element, keeping the order (`array_map('strtoupper', ...)`). */
  function UpperAll(ss: seq<string>): (r: seq<string>)
    ensures |r| == |ss| && forall i :: 0 <= i < |ss| ==> r[i] == Upper(ss[i])
  {
    seq(|ss|, i requires 0 <= i < |ss| => Upper(ss[i]))
  }

  // ---------------------------------------------------------------------------
  // Slashes

  predicate IsSlash(c: char) {
    c == '/' || c == '\\'
  }

  /** `rtrim(s, '/\\')`, which is WordPress's `untrailingslashit`. */
  function Untrailingslashit(s: string): (r: string)
    ensures |r| <= |s| && r == s[..|r|]
    ensures |r| > 0 ==> !IsSlash(r[|r| - 1])
    ensures forall i :: |r| <= i < |s| ==> IsSlash(s[i])
    decreases |s|
  {
    if |s| > 0 && IsSlash(s[|s| - 1]) then Untrailingslashit(s[..|s| - 1]) else s
  }

  /** WordPress's `trailingslashit`: exactly one trailing '/'. */
  function Trailingslashit(s: string): string {
    Untrailingslashit(s) + "/"
  }

  /** `ltrim(s, '/')`. */
  function LtrimSlashes(s: string): (r: string)
    ensures |r| <= |s| && r == s[|s| - |r|..]
    ensures |r| > 0 ==> r[0] != '/'
    decreases |s|
  {
    if |s| > 0 && s[0] == '/' then LtrimSlashes(s[1..]) else s
  }

  /** A string that does not end in a slash is its own untrailed form. */
  lemma UntrailingslashitNoSlash(s: string)
    requires |s| == 0 || !IsSlash(s[|s| - 1])
    ensures Untrailingslashit(s) == s
  {
  }

  /** Untrailing a path that ends in a non-slash component keeps everything. */
  lemma UntrailingslashitAppend(a: string, b: string)
    requires |b| > 0 && !IsSlash(b[|b| - 1])
    ensures Untrailingslashit(a + b) == a + b
  {
  }

  // ---------------------------------------------------------------------------
  // basename / dirname (PHP on a '/'-separated file system)

  /** `rtrim(s, '/')`. */
  function RtrimSlash(s: string): (r: string)
    ensures |r| <= |s| && r == s[..|r|]
    ensures |r| > 0 ==> r[|r| - 1] != '/'
    decreases |s|
  {
    if |s| > 0 && s[|s| - 1] == '/' then RtrimSlash(s[..|s| - 1]) else s
  }

  /** Everything after the last '/' of `s`. */
  function AfterLastSlash(s: string): (r: string)
    ensures |r| <= |s| && r == s[|s| - |r|..]
    ensures '/' !in r
    ensures |r| < |s| ==> s[|s| - |r| - 1] == '/'
    decreases |s|
  {
    if |s| == 0 || s[|s| - 1] == '/' then "" else AfterLastSlash(s[..|s| - 1]) + [s[|s| - 1]]
  }

  /** `basename(path)`: the last component, trailing slashes ignored. */
  function Basename(path: string): (r: string)
    ensures '/' !in r
  {
    AfterLastSlash(RtrimSlash(path))
  }

  /** `dirname(path)`: the path without its last component; "." when there is no
      directory part and "/" for the root. */
  function Dirname(path: string): string {
    if path == "" then ""
    else
      var p := RtrimSlash(path);
      if p == "" then "/"
      else
        var q := p[..|p| - |AfterLastSlash(p)|];
        if q == "" then "."
        else
          var d := RtrimSlash(q);
          if d == "" then "/" else d
  }

  lemma AfterLastSlashOfJoin(a: string, b: string)
    requires '/' !in b
    ensures AfterLastSlash(a + "/" + b) == b
    decreases |b|
  {
    if |b| > 0 {
      assert (a + "/" + b)[..|a + "/" + b| - 1] == a + "/" + b[..|b| - 1];
      AfterLastSlashOfJoin(a, b[..|b| - 1]);
    } else {
      assert (a + "/" + b) == a + "/";
    }
  }

  /** The directory of `dir/name` is `dir`, when `name` is a single component and
      `dir` does not end in a slash. */
  lemma {:induction false} DirnameOfJoin(dir: string, name: string)
    requires |dir| > 0 && dir[|dir| - 1] != '/'
    requires |name| > 0 && '/' !in name
    ensures Dirname(dir + "/" + name) == dir
  {
    var path := dir + "/" + name;
    assert RtrimSlash(path) == path by {
      assert path[|path| - 1] == name[|name| - 1];
    }
    AfterLastSlashOfJoin(dir, name);
    assert path[..|path| - |name|] == dir + "/";
    assert RtrimSlash(dir + "/") == RtrimSlash(dir) by {
      assert (dir + "/")[..|dir + "/"| - 1] == dir;
    }
  }

  /** `basename(dir/name)` is `name` for a single component. */
  lemma BasenameOfJoin(dir: string, name: string)
    requires |name| > 0 && '/' !in name
    ensures Basename(dir + "/" + name) == name
  {
    var path := dir + "/" + name;
    assert path[|path| - 1] == name[|name| - 1];
    AfterLastSlashOfJoin(dir, name);
  }

  // ---------------------------------------------------------------------------
  // array_unique

  /** `array_unique`: the first occurrence of each value, in order. */
  function Unique<T(==)>(s: seq<T>): (r: seq<T>)
    ensures |r| <= |s|
    decreases |s|
  {
    if |s| == 0 then []
    else
      var u := Unique(s[..|s| - 1]);
      if s[|s| - 1] in u then u else u + [s[|s| - 1]]
  }

  predicate NoDuplicates<T(==)>(s: seq<T>) {
    forall i, j :: 0 <= i < j < |s| ==> s[i] != s[j]
  }

  /** `array_unique` keeps exactly the values of its input, each once. */
  lemma {:induction false} UniqueSpec<T>(s: seq<T>)
    ensures forall x :: x in Unique(s) <==> x in s
    ensures NoDuplicates(Unique(s))
    decreases |s|
  {
    if |s| > 0 {
      var init := s[..|s| - 1];
      UniqueSpec(init);
      assert s == init + [s[|s| - 1]];
    }
  }

  /** On a list without duplicates `array_unique` changes nothing. */
  lemma {:induction false} UniqueOfDistinct<T>(s: seq<T>)
    requires NoDuplicates(s)
    ensures Unique(s) == s
    decreases |s|
  {
    if |s| > 0 {
      var init := s[..|s| - 1];
      UniqueOfDistinct(init);
      UniqueSpec(init);
      assert forall k :: 0 <= k < |init| ==> init[k] == s[k] != s[|s| - 1];
      assert s == init + [s[|s| - 1]];
    }
  }
}
