/** The three string operations of JavaScript that the registry relies on:
    String.prototype.trim, String.prototype.toLowerCase and String.prototype.includes. */
module Texto {

  /** The characters trim removes: ECMAScript's WhiteSpace (tab, vertical tab, form feed,
      the byte order mark and every Unicode space separator) and LineTerminator (line feed,
      carriage return, line and paragraph separators). */
  predicate EhEspaco(c: char) {
    c == '\t' || c == '\n' || c == '\U{000B}' || c == '\U{000C}' || c == '\r' || c == ' ' ||
    c == '\U{00A0}' || c == '\U{1680}' || ('\U{2000}' <= c <= '\U{200A}') ||
    c == '\U{2028}' || c == '\U{2029}' || c == '\U{202F}' || c == '\U{205F}' ||
    c == '\U{3000}' || c == '\U{FEFF}'
  }

  /** Holds when every character of s is one that trim removes (vacuously for ""). */
  predicate EmBranco(s: string) {
    forall i :: 0 <= i < |s| ==> EhEspaco(s[i])
  }

  /** Drops the leading whitespace. */
  function TrimInicio(s: string): (r: string) {
    if s != [] && EhEspaco(s[0]) then TrimInicio(s[1..]) else s
  }

  /** Drops the trailing whitespace. */
  function TrimFim(s: string): (r: string) {
    if s != [] && EhEspaco(s[|s| - 1]) then TrimFim(s[..|s| - 1]) else s
  }

  /** What TrimInicio leaves is a suffix of s that does not start with whitespace, and
      everything it drops is whitespace. */
  lemma {:induction false} TrimInicioCorreto(s: string)
    ensures |TrimInicio(s)| <= |s| && TrimInicio(s) == s[|s| - |TrimInicio(s)|..]
    ensures TrimInicio(s) != [] ==> !EhEspaco(TrimInicio(s)[0])
    ensures EmBranco(s[..|s| - |TrimInicio(s)|])
  {
    if s != [] && EhEspaco(s[0]) {
      var t := s[1..];
      TrimInicioCorreto(t);
      var k := |t| - |TrimInicio(t)|;
      assert s[..k + 1] == [s[0]] + t[..k];
      assert t[k..] == s[k + 1..];
    }
  }

  /** What TrimFim leaves is a prefix of s that does not end with whitespace, and
      everything it drops is whitespace. */
  lemma {:induction false} TrimFimCorreto(s: string)
    ensures |TrimFim(s)| <= |s| && TrimFim(s) == s[..|TrimFim(s)|]
    ensures TrimFim(s) != [] ==> !EhEspaco(TrimFim(s)[|TrimFim(s)| - 1])
    ensures EmBranco(s[|TrimFim(s)|..])
  {
    if s != [] && EhEspaco(s[|s| - 1]) {
      var t := s[..|s| - 1];
      TrimFimCorreto(t);
      var k := |TrimFim(t)|;
      assert s[k..] == t[k..] + [s[|s| - 1]];
      assert t[..k] == s[..k];
    }
  }

  /** r is the piece of s that starts at index i. */
  predicate TrechoEm(s: string, r: string, i: int) {
    0 <= i <= |s| - |r| && r == s[i..i + |r|]
  }

  /** String.prototype.trim. */
  function Trim(s: string): (r: string) {
    TrimFim(TrimInicio(s))
  }

  /** trim yields a contiguous piece of s without whitespace at either end, obtained by
      dropping nothing but whitespace. */
  lemma TrimCorreto(s: string)
    ensures exists i :: TrechoEm(s, Trim(s), i) && EmBranco(s[..i]) && EmBranco(s[i + |Trim(s)|..])
    ensures Trim(s) != [] ==> !EhEspaco(Trim(s)[0]) && !EhEspaco(Trim(s)[|Trim(s)| - 1])
  {
    var t := TrimInicio(s);
    var r := TrimFim(t);
    TrimInicioCorreto(s);
    TrimFimCorreto(t);
    var i := |s| - |t|;
    assert r == s[i..][..|r|] == s[i..i + |r|];
    assert s[i + |r|..] == t[|r|..];
    assert TrechoEm(s, r, i) && EmBranco(s[..i]) && EmBranco(s[i + |r|..]);
  }

  /** trim yields "" exactly for the strings made only of whitespace. */
  lemma TrimVazioSeEmBranco(s: string)
    ensures Trim(s) == "" <==> EmBranco(s)
  {
    var t := TrimInicio(s);
    TrimInicioCorreto(s);
    TrimFimCorreto(t);
    if !EmBranco(s) && t != [] {
      assert TrimFim(t) != [] by {
        assert t[0..] == t;
      }
    }
  }

  /** toLowerCase on one character, for the letters this model covers: the ASCII capitals
      A-Z and the Latin-1 capitals U+00C0-U+00DE except the multiplication sign U+00D7
      (which covers the accented letters of Portuguese, such as Ó and Ç). */
  function MinusculaChar(c: char): (r: char) {
    if 'A' <= c <= 'Z' || ('\U{00C0}' <= c <= '\U{00DE}' && c != '\U{00D7}') then
      (c as int + 32) as char
    else
      c
  }

  /** toLowerCase on a string: character by character. */
  function Minusculas(s: string): (r: string) {
    seq(|s|, i requires 0 <= i < |s| => MinusculaChar(s[i]))
  }

  /** Lowering twice is lowering once: a lowered letter is no longer a capital. */
  lemma MinusculasIdempotente(s: string)
    ensures Minusculas(Minusculas(s)) == Minusculas(s)
  {
    var r := Minusculas(s);
    forall i | 0 <= i < |s|
      ensures Minusculas(r)[i] == r[i]
    {
      assert MinusculaChar(MinusculaChar(s[i])) == MinusculaChar(s[i]);
    }
  }

  /** The needle n occurs in h starting at index i. */
  predicate OcorreEm(h: string, n: string, i: int) {
    0 <= i && i + |n| <= |h| && h[i..i + |n|] == n
  }

  /** String.prototype.includes: does n occur somewhere in h? ("" occurs everywhere.) */
  function Inclui(h: string, n: string): (r: bool)
    decreases |h|
  {
    if n <= h then true
    else if h == [] then false
    else Inclui(h[1..], n)
  }

  /** If includes holds, there is a position at which n occurs in h. */
  lemma {:induction false} IncluiImplicaOcorre(h: string, n: string)
    requires Inclui(h, n)
    ensures exists i :: OcorreEm(h, n, i)
    decreases |h|
  {
    if n <= h {
      assert h[0..|n|] == n;
      assert OcorreEm(h, n, 0);
    } else {
      IncluiImplicaOcorre(h[1..], n);
      var i :| OcorreEm(h[1..], n, i);
      assert h[i + 1..i + 1 + |n|] == h[1..][i..i + |n|];
      assert OcorreEm(h, n, i + 1);
    }
  }

  /** If n occurs in h at position i, includes holds. */
  lemma {:induction false} OcorreImplicaInclui(h: string, n: string, i: int)
    requires OcorreEm(h, n, i)
    ensures Inclui(h, n)
    decreases i
  {
    if i == 0 {
      assert h[..|n|] == n;
    } else if !(n <= h) {
      assert h[1..][i - 1..i - 1 + |n|] == h[i..i + |n|];
      OcorreImplicaInclui(h[1..], n, i - 1);
    }
  }

  /** includes is true exactly when there is a position at which n occurs in h. */
  lemma IncluiSeOcorre(h: string, n: string)
    ensures Inclui(h, n) <==> exists i :: OcorreEm(h, n, i)
  {
    forall i | OcorreEm(h, n, i)
      ensures Inclui(h, n)
    {
      OcorreImplicaInclui(h, n, i);
    }
    if Inclui(h, n) {
      IncluiImplicaOcorre(h, n);
    }
  }
}
