/**
 * The part of System.IO.Path that the file types use to split a display name
 * into a base name and an extension (Path.GetExtension, Path.GetFileName,
 * Path.GetFileNameWithoutExtension), with the Windows separator set.
 */
module Paths {
  import opened Wrappers

  /** Directory separator, alternative separator and volume separator on Windows. */
  predicate IsSeparator(c: char) {
    c == '\\' || c == '/' || c == ':'
  }

  predicate HasSeparator(s: string) {
    exists j :: 0 <= j < |s| && IsSeparator(s[j])
  }

  /**
   * Scanning `s[..i]` from the right, the index of the first '.' met before
   * any separator, as Path.GetExtension scans.
   */
  function ExtensionDot(s: string, i: nat): (r: Option<nat>)
    requires i <= |s|
    ensures r.Some? ==> r.value < i && s[r.value] == '.'
    ensures r.Some? ==> forall j :: r.value < j < i ==> s[j] != '.' && !IsSeparator(s[j])
    ensures r.None? && !HasSeparator(s) ==> forall j :: 0 <= j < i ==> s[j] != '.'
    decreases i
  {
    if i == 0 then None
    else if s[i - 1] == '.' then Some(i - 1)
    else if IsSeparator(s[i - 1]) then None
    else ExtensionDot(s, i - 1)
  }

  /** Path.GetExtension: from the extension dot to the end, or "" when the dot is last or absent. */
  function GetExtension(s: string): (r: string)
    ensures r == [] || r[0] == '.'
    ensures forall j :: 1 <= j < |r| ==> r[j] != '.'
  {
    match ExtensionDot(s, |s|)
    case None => ""
    case Some(d) => if d != |s| - 1 then s[d..] else ""
  }

  /** Index just after the last separator, or 0 when there is none. */
  function NameStart(s: string, i: nat): (r: nat)
    requires i <= |s|
    ensures r <= i
    ensures forall j :: r <= j < i ==> !IsSeparator(s[j])
    ensures r > 0 ==> IsSeparator(s[r - 1])
    decreases i
  {
    if i == 0 then 0
    else if IsSeparator(s[i - 1]) then i
    else NameStart(s, i - 1)
  }

  /** Path.GetFileName: the part after the last separator. */
  function GetFileName(s: string): (r: string)
    ensures !HasSeparator(r)
    ensures !HasSeparator(s) ==> r == s
  {
    var k := NameStart(s, |s|);
    if k == 0 then
      assert !HasSeparator(s);
      s
    else
      s[k..]
  }

  /** Index of the last occurrence of '.' in `s[..i]`. */
  function LastDot(s: string, i: nat): (r: Option<nat>)
    requires i <= |s|
    ensures r.Some? ==> r.value < i && s[r.value] == '.'
    ensures r.Some? ==> forall j :: r.value < j < i ==> s[j] != '.'
    ensures r.None? ==> forall j :: 0 <= j < i ==> s[j] != '.'
    decreases i
  {
    if i == 0 then None
    else if s[i - 1] == '.' then Some(i - 1)
    else LastDot(s, i - 1)
  }

  /** Path.GetFileNameWithoutExtension: the file name up to its last dot. */
  function GetFileNameWithoutExtension(s: string): (r: string)
    ensures var n := GetFileName(s);
            && |r| <= |n| && r == n[..|r|]
            && (|r| < |n| ==> n[|r|] == '.' && forall j :: |r| < j < |n| ==> n[j] != '.')
            && (|r| == |n| ==> forall j :: 0 <= j < |n| ==> n[j] != '.')
  {
    var n := GetFileName(s);
    match LastDot(n, |n|)
    case None => n
    case Some(d) => n[..d]
  }

  /**
   * The extension with its leading dot removed, as the file types' FileExt
   * does. It never contains a dot, and is empty exactly when GetExtension is.
   */
  function FileExt(name: string): (r: string)
    ensures forall j :: 0 <= j < |r| ==> r[j] != '.'
    ensures r == "" <==> GetExtension(name) == ""
    ensures r != "" ==> GetExtension(name) == "." + r
  {
    var ext := GetExtension(name);
    if |ext| > 0 && ext[0] == '.' then
      assert forall j :: 0 <= j < |ext[1..]| ==> ext[1..][j] == ext[j + 1];
      assert ext == "." + ext[1..];
      ext[1..]
    else ext
  }

  /**
   * The base name, as the file types' BaseName does: for a name without
   * separators, the name cut at its last dot, or the whole name when it has
   * no dot.
   */
  function BaseName(name: string): (r: string)
    ensures !HasSeparator(name) ==> |r| <= |name| && r == name[..|r|]
    ensures !HasSeparator(name) && (forall j :: 0 <= j < |name| ==> name[j] != '.') ==> r == name
  {
    GetFileNameWithoutExtension(name)
  }

  /** For a name without separators that has a dot, the base name is the name up to its last dot. */
  lemma BaseNameCut(name: string)
    requires !HasSeparator(name)
    requires exists j :: 0 <= j < |name| && name[j] == '.'
    ensures var k := |BaseName(name)|;
            && k < |name| && name[k] == '.' && BaseName(name) == name[..k]
            && forall j :: k < j < |name| ==> name[j] != '.'
  {
    assert GetFileName(name) == name;
  }

  /** After the last dot of a name without separators comes its FileExt. */
  lemma FileExtAfter(name: string, k: nat)
    requires k < |name| && name[k] == '.'
    requires !HasSeparator(name)
    requires forall j :: k < j < |name| ==> name[j] != '.'
    ensures FileExt(name) == name[k + 1..]
  {
    assert forall j :: k < j < |name| ==> !IsSeparator(name[j]);
    ExtensionDotAfter(name, |name|, k);
    if k < |name| - 1 {
      assert GetExtension(name) == name[k..];
      assert name[k..][1..] == name[k + 1..];
    }
  }

  /** For a name without separators that has a dot, base name, dot and extension put back together give the name. */
  lemma {:induction false} SplitRoundTrip(name: string)
    requires !HasSeparator(name)
    requires exists j :: 0 <= j < |name| && name[j] == '.'
    ensures BaseName(name) + "." + FileExt(name) == name
  {
    BaseNameCut(name);
    var k := |BaseName(name)|;
    FileExtAfter(name, k);
    Rejoin(name, k, BaseName(name), FileExt(name));
  }

  /** Cutting a string around one of its characters and putting it back gives the string. */
  lemma Rejoin(s: string, k: nat, b: string, e: string)
    requires k < |s| && s[k] == '.'
    requires b == s[..k] && e == s[k + 1..]
    ensures b + "." + e == s
  {
    assert s == s[..k] + [s[k]] + s[k + 1..];
  }

  /** Without separators the extension dot is the last dot. */
  lemma {:induction false} SameDot(s: string, i: nat)
    requires i <= |s|
    requires !HasSeparator(s)
    ensures ExtensionDot(s, i) == LastDot(s, i)
    decreases i
  {
    if i > 0 && s[i - 1] != '.' {
      assert !IsSeparator(s[i - 1]);
      SameDot(s, i - 1);
    }
  }

  /** A name without dots has an empty extension and is its own base name once separators are stripped. */
  lemma NoDotSplit(name: string)
    requires forall j :: 0 <= j < |name| ==> name[j] != '.'
    ensures FileExt(name) == ""
    ensures BaseName(name) == GetFileName(name)
    ensures !HasSeparator(name) ==> BaseName(name) == name
  {
    var n := GetFileName(name);
    var k := NameStart(name, |name|);
    assert forall j :: 0 <= j < |n| ==> n[j] != '.' by {
      forall j | 0 <= j < |n| ensures n[j] != '.' {
        if k > 0 { assert n[j] == name[k + j]; }
      }
    }
    assert LastDot(n, |n|).None?;
  }

  /** Appending ".ext" to any name, whatever it contains, makes the extension "ext" when "ext" holds no dot or separator. */
  lemma AppendedExtension(name: string, ext: string)
    requires |ext| > 0
    requires forall j :: 0 <= j < |ext| ==> ext[j] != '.' && !IsSeparator(ext[j])
    ensures FileExt(name + "." + ext) == ext
  {
    var s := name + "." + ext;
    var d := |name|;
    assert s[d] == '.';
    ExtensionDotAfter(s, |s|, d);
    assert GetExtension(s) == s[d..];
    assert s[d + 1..] == ext;
  }

  /** If `s[d]` is a dot and nothing after it up to `i` is a dot or separator, the scan finds `d`. */
  lemma {:induction false} ExtensionDotAfter(s: string, i: nat, d: nat)
    requires d < i <= |s|
    requires s[d] == '.'
    requires forall j :: d < j < i ==> s[j] != '.' && !IsSeparator(s[j])
    ensures ExtensionDot(s, i) == Some(d)
    decreases i
  {
    if i - 1 != d {
      ExtensionDotAfter(s, i - 1, d);
    }
  }
}
