/**
 * The parts of the C library the core relies on. A C `char` is a signed
 * byte (as on the x86-64 and common ABIs), a C string is its chars without
 * the terminating NUL, and the character functions work in the "C" locale.
 */
module CString {
  import opened Wrappers

  newtype CChar = x: int | -128 <= x < 128

  const Nul: CChar := 0

  /** The `char` of an ASCII character literal. */
  function Ch(c: char): (b: CChar)
    requires c as int < 128
    ensures 0 <= b && b as int == c as int
  {
    (c as int) as CChar
  }

  /** The chars of an ASCII string literal. */
  function Ascii(s: string): (r: seq<CChar>)
    requires forall i :: 0 <= i < |s| ==> s[i] as int < 128
    ensures |r| == |s|
    ensures forall i :: 0 <= i < |r| ==> 0 <= r[i] && r[i] as int == s[i] as int
  {
    seq(|s|, i requires 0 <= i < |s| => Ch(s[i]))
  }

  /** A C string holds no NUL: the NUL ends it. */
  predicate IsCString(s: seq<CChar>) {
    Nul !in s
  }

  /** The chars a C string occupies in memory, terminator included. */
  function Terminated(s: seq<CChar>): (t: seq<CChar>)
    ensures |t| == |s| + 1 && t[..|s|] == s && t[|s|] == Nul
  {
    s + [Nul]
  }

  /**
   * The C string a `c_str()` pointer shows: the chars of `s` up to, not
   * including, its first NUL.
   */
  function AsCString(s: seq<CChar>): (r: seq<CChar>)
    ensures IsCString(r) && |r| <= |s| && r == s[..|r|]
    ensures |r| < |s| ==> s[|r|] == Nul
    ensures IsCString(s) ==> r == s
  {
    if |s| == 0 || s[0] == Nul then [] else [s[0]] + AsCString(s[1..])
  }

  /**
   * `strchr(s, c)`: the offset of the first occurrence of `c` in `s`,
   * where the terminating NUL is part of the string searched, or None for
   * the null pointer.
   */
  function Strchr(s: seq<CChar>, c: CChar): (r: Option<nat>)
    requires IsCString(s)
    ensures r.Some? ==> r.value <= |s| && Terminated(s)[r.value] == c
    ensures r.Some? ==> forall j :: 0 <= j < r.value ==> s[j] != c
    ensures r.None? <==> c !in Terminated(s)
  {
    if |s| == 0 then
      if c == Nul then Some(0) else None
    else if s[0] == c then
      Some(0)
    else
      match Strchr(s[1..], c)
      case Some(i) => Some(i + 1)
      case None => None
  }

  /** `strchr` returns non-null exactly for the chars of `s` and for NUL. */
  lemma {:induction false} StrchrFound(s: seq<CChar>, c: CChar)
    requires IsCString(s)
    ensures Strchr(s, c).Some? <==> c in s || c == Nul
  {
    assert Terminated(s) == s + [Nul];
  }

  predicate IsLower(c: CChar) {
    Ch('a') <= c <= Ch('z')
  }

  predicate IsUpper(c: CChar) {
    Ch('A') <= c <= Ch('Z')
  }

  /** `tolower` in the "C" locale. */
  function ToLower(c: CChar): (r: CChar)
    ensures !IsUpper(r)
    ensures !IsUpper(c) ==> r == c
    ensures IsUpper(c) ==> IsLower(r) && r - c == Ch('a') - Ch('A')
  {
    if IsUpper(c) then c + 32 else c
  }

  /** `toupper` in the "C" locale. */
  function ToUpper(c: CChar): (r: CChar)
    ensures !IsLower(r)
    ensures !IsLower(c) ==> r == c
    ensures IsLower(c) ==> IsUpper(r) && ToLower(r) == c
  {
    if IsLower(c) then c - 32 else c
  }
}
