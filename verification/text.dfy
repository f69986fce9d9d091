/**
 * Character-level text functions: upper-casing for the case-insensitive ledger
 * key (String.ToUpper) and percent-decoding of backend names
 * (HttpUtility.UrlDecode).
 */
module Text {
  import Paths

  /** Upper case of one character; only the ASCII letters a-z change. */
  function UpperChar(c: char): char {
    if 'a' <= c <= 'z' then (c as int - 32) as char else c
  }

  /** String.ToUpper, character by character. */
  function Upper(s: string): (r: string)
    ensures |r| == |s|
    ensures forall j :: 0 <= j < |s| ==> r[j] == UpperChar(s[j])
  {
    seq(|s|, j requires 0 <= j < |s| => UpperChar(s[j]))
  }

  /** Upper-casing keeps dots and separators where they are and makes no new ones. */
  lemma UpperKeepsStructure(c: char)
    ensures UpperChar(c) == '.' <==> c == '.'
    ensures Paths.IsSeparator(UpperChar(c)) <==> Paths.IsSeparator(c)
  {
  }

  lemma UpperSlice(s: string, a: nat, b: nat)
    requires a <= b <= |s|
    ensures Upper(s[a..b]) == Upper(s)[a..b]
  {
  }

  lemma {:induction false} UpperExtensionDot(s: string, i: nat)
    requires i <= |s|
    ensures Paths.ExtensionDot(Upper(s), i) == Paths.ExtensionDot(s, i)
    decreases i
  {
    if i > 0 {
      UpperKeepsStructure(s[i - 1]);
      UpperExtensionDot(s, i - 1);
    }
  }

  lemma {:induction false} UpperNameStart(s: string, i: nat)
    requires i <= |s|
    ensures Paths.NameStart(Upper(s), i) == Paths.NameStart(s, i)
    decreases i
  {
    if i > 0 {
      UpperKeepsStructure(s[i - 1]);
      UpperNameStart(s, i - 1);
    }
  }

  lemma {:induction false} UpperLastDot(s: string, i: nat)
    requires i <= |s|
    ensures Paths.LastDot(Upper(s), i) == Paths.LastDot(s, i)
    decreases i
  {
    if i > 0 {
      UpperKeepsStructure(s[i - 1]);
      UpperLastDot(s, i - 1);
    }
  }

  lemma UpperFileName(name: string)
    ensures Paths.GetFileName(Upper(name)) == Upper(Paths.GetFileName(name))
  {
    var u := Upper(name);
    UpperNameStart(name, |name|);
    var k := Paths.NameStart(name, |name|);
    if k > 0 {
      UpperSlice(name, k, |name|);
      assert name[k..] == name[k..|name|];
      assert u[k..] == u[k..|name|];
    }
  }

  lemma UpperBaseName(name: string)
    ensures Paths.BaseName(Upper(name)) == Upper(Paths.BaseName(name))
  {
    var n := Paths.GetFileName(name);
    UpperFileName(name);
    UpperLastDot(n, |n|);
    match Paths.LastDot(n, |n|)
    case None =>
    case Some(d) =>
      UpperSlice(n, 0, d);
      assert n[..d] == n[0..d];
      assert Upper(n)[..d] == Upper(n)[0..d];
  }

  lemma UpperGetExtension(name: string)
    ensures Paths.GetExtension(Upper(name)) == Upper(Paths.GetExtension(name))
  {
    var u := Upper(name);
    UpperExtensionDot(name, |name|);
    match Paths.ExtensionDot(name, |name|)
    case None =>
    case Some(d) =>
      if d != |name| - 1 {
        UpperSlice(name, d, |name|);
        assert name[d..] == name[d..|name|];
        assert u[d..] == u[d..|name|];
      }
  }

  lemma UpperFileExt(name: string)
    ensures Paths.FileExt(Upper(name)) == Upper(Paths.FileExt(name))
  {
    UpperGetExtension(name);
    var e := Paths.GetExtension(name);
    if |e| > 0 {
      UpperKeepsStructure(e[0]);
      UpperSlice(e, 1, |e|);
      assert e[1..] == e[1..|e|];
      assert Upper(e)[1..] == Upper(e)[1..|e|];
    }
  }

  /**
   * Upper-casing a name and then splitting it gives the upper-cased parts:
   * the ledger key of a name depends only on the name's upper case.
   */
  lemma UpperCommutesWithSplit(name: string)
    ensures Paths.BaseName(Upper(name)) == Upper(Paths.BaseName(name))
    ensures Paths.FileExt(Upper(name)) == Upper(Paths.FileExt(name))
  {
    UpperBaseName(name);
    UpperFileExt(name);
  }


  predicate IsHex(c: char) {
    '0' <= c <= '9' || 'a' <= c <= 'f' || 'A' <= c <= 'F'
  }

  function HexValue(c: char): (r: nat)
    requires IsHex(c)
    ensures r < 16
  {
    if '0' <= c <= '9' then c as int - '0' as int
    else if 'a' <= c <= 'f' then c as int - 'a' as int + 10
    else c as int - 'A' as int + 10
  }

  /** The characters that the decoder treats specially. */
  predicate IsEscapeChar(c: char) {
    c == '+' || c == '%'
  }

  /**
   * HttpUtility.UrlDecode: '+' becomes a space, "%hh" becomes the character
   * with code hh, and everything else, including a malformed escape, is kept.
   */
  function UrlDecode(s: string): (r: string)
    ensures |r| <= |s|
    ensures (forall j :: 0 <= j < |s| ==> !IsEscapeChar(s[j])) ==> r == s
    decreases |s|
  {
    if s == [] then []
    else if s[0] == '+' then [' '] + UrlDecode(s[1..])
    else if s[0] == '%' && |s| >= 3 && IsHex(s[1]) && IsHex(s[2]) then
      [(HexValue(s[1]) * 16 + HexValue(s[2])) as char] + UrlDecode(s[3..])
    else [s[0]] + UrlDecode(s[1..])
  }
}
