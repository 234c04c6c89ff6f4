/**
 * The few Python string operations the tools rely on, stated over seq<char>:
 * str.isspace, str.strip, str.upper, str.lower, str.replace(c, "") and
 * str.join. Case mapping is modelled on ASCII letters only.
 */
module Text {

  /** Python's str.isspace on a single character. */
  predicate IsSpace(c: char)
  {
    ('\t' <= c <= '\r') || ('\U{1C}' <= c <= '\U{1F}') || c == ' '
    || c == '\U{85}' || c == '\U{A0}' || c == '\U{1680}'
    || ('\U{2000}' <= c <= '\U{200A}') || c == '\U{2028}' || c == '\U{2029}'
    || c == '\U{202F}' || c == '\U{205F}' || c == '\U{3000}'
  }

  predicate IsLower(c: char) { 'a' <= c <= 'z' }

  predicate IsUpper(c: char) { 'A' <= c <= 'Z' }

  /** No leading and no trailing whitespace. */
  predicate IsStripped(s: string)
  {
    s == [] || (!IsSpace(s[0]) && !IsSpace(s[|s| - 1]))
  }

  predicate HasNoLowercase(s: string)
  {
    forall i :: 0 <= i < |s| ==> !IsLower(s[i])
  }

  /** Drops the leading whitespace. */
  function TrimStart(s: string): string
  {
    if s != [] && IsSpace(s[0]) then TrimStart(s[1..]) else s
  }

  /** Drops the trailing whitespace. */
  function TrimEnd(s: string): string
  {
    if s != [] && IsSpace(s[|s| - 1]) then TrimEnd(s[..|s| - 1]) else s
  }

  /** What remains after TrimStart is a suffix of s, preceded only by whitespace. */
  lemma {:induction false} TrimStartFacts(s: string)
    ensures |TrimStart(s)| <= |s|
    ensures TrimStart(s) == s[|s| - |TrimStart(s)|..]
    ensures forall i :: 0 <= i < |s| - |TrimStart(s)| ==> IsSpace(s[i])
    ensures TrimStart(s) == [] || !IsSpace(TrimStart(s)[0])
  {
    if s != [] && IsSpace(s[0]) {
      var t := s[1..];
      TrimStartFacts(t);
      var r := TrimStart(t);
      assert TrimStart(s) == r;
      assert s[|s| - |r|..] == t[|t| - |r|..];
      forall i | 0 <= i < |s| - |r| ensures IsSpace(s[i]) {
        if i > 0 {
          assert s[i] == t[i - 1];
        }
      }
    }
  }

  /** What remains after TrimEnd is a prefix of s, followed only by whitespace. */
  lemma {:induction false} TrimEndFacts(s: string)
    ensures |TrimEnd(s)| <= |s|
    ensures TrimEnd(s) == s[..|TrimEnd(s)|]
    ensures forall i :: |TrimEnd(s)| <= i < |s| ==> IsSpace(s[i])
    ensures TrimEnd(s) == [] || !IsSpace(TrimEnd(s)[|TrimEnd(s)| - 1])
  {
    if s != [] && IsSpace(s[|s| - 1]) {
      var t := s[..|s| - 1];
      TrimEndFacts(t);
      var r := TrimEnd(t);
      assert TrimEnd(s) == r;
      assert s[..|r|] == t[..|r|];
      forall i | |r| <= i < |s| ensures IsSpace(s[i]) {
        if i < |t| {
          assert s[i] == t[i];
        }
      }
    }
  }

  /** Python's str.strip() without arguments. */
  function Strip(s: string): string
  {
    TrimEnd(TrimStart(s))
  }

  /** strip() leaves no whitespace at either end, and changes nothing that has none. */
  lemma StripFacts(s: string)
    ensures IsStripped(Strip(s))
    ensures IsStripped(s) ==> Strip(s) == s
    ensures |Strip(s)| <= |s|
  {
    TrimStartFacts(s);
    TrimEndFacts(TrimStart(s));
  }

  function UpperChar(c: char): char
  {
    if IsLower(c) then (c as int - 32) as char else c
  }

  function LowerChar(c: char): char
  {
    if IsUpper(c) then (c as int + 32) as char else c
  }

  /** Python's str.upper(), restricted to ASCII letters. */
  function Upper(s: string): string
  {
    seq(|s|, i requires 0 <= i < |s| => UpperChar(s[i]))
  }

  /** Python's str.lower(), restricted to ASCII letters. */
  function Lower(s: string): string
  {
    seq(|s|, i requires 0 <= i < |s| => LowerChar(s[i]))
  }

  /** Python's s.replace(x, "") for a one-character x. */
  function Remove(s: string, x: char): (r: string)
    ensures x !in r
    ensures |r| <= |s|
    ensures x !in s ==> r == s
    ensures forall c :: c in r ==> c in s
    ensures s != [] && s[0] != x ==> r != [] && r[0] == s[0]
    ensures s != [] && s[|s| - 1] != x ==> r != [] && r[|r| - 1] == s[|s| - 1]
  {
    if s == [] then [] else (if s[0] == x then [] else [s[0]]) + Remove(s[1..], x)
  }

  /** Python's "".join(parts). */
  function Concat(parts: seq<string>): string
  {
    if parts == [] then [] else Concat(parts[..|parts| - 1]) + parts[|parts| - 1]
  }

  predicate StartsWith(s: string, prefix: string)
  {
    |prefix| <= |s| && s[..|prefix|] == prefix
  }

  predicate EndsWith(s: string, suffix: string)
  {
    |suffix| <= |s| && s[|s| - |suffix|..] == suffix
  }

  lemma UpperCharFacts(c: char)
    ensures IsSpace(UpperChar(c)) <==> IsSpace(c)
    ensures !IsLower(UpperChar(c))
    ensures UpperChar(c) == c <==> !IsLower(c)
    ensures IsUpper(UpperChar(c)) <==> IsUpper(c) || IsLower(c)
  {
  }

  /** Upper-casing neither creates nor removes whitespace at either end. */
  lemma UpperKeepsStripped(s: string)
    requires IsStripped(s)
    ensures IsStripped(Upper(s))
  {
    if s != [] {
      UpperCharFacts(s[0]);
      UpperCharFacts(s[|s| - 1]);
    }
  }

  lemma UpperHasNoLowercase(s: string)
    ensures HasNoLowercase(Upper(s))
  {
    forall i | 0 <= i < |s| ensures !IsLower(Upper(s)[i]) {
      UpperCharFacts(s[i]);
    }
  }

  lemma UpperIdentity(s: string)
    requires HasNoLowercase(s)
    ensures Upper(s) == s
  {
    forall i | 0 <= i < |s| ensures Upper(s)[i] == s[i] {
      UpperCharFacts(s[i]);
    }
  }

  lemma UpperAppend(a: string, b: string)
    ensures Upper(a + b) == Upper(a) + Upper(b)
  {
    assert forall i :: 0 <= i < |a + b| ==> Upper(a + b)[i] == (Upper(a) + Upper(b))[i];
  }

  /** Removing a non-letter character commutes with upper-casing. */
  lemma {:induction false} RemoveUpper(s: string, x: char)
    requires !IsLower(x) && !IsUpper(x)
    ensures Remove(Upper(s), x) == Upper(Remove(s, x))
  {
    if s != [] {
      var u, rest := Upper(s), Remove(s[1..], x);
      var head := if s[0] == x then [] else [s[0]];
      var uhead := if u[0] == x then [] else [u[0]];
      assert u[1..] == Upper(s[1..]);
      assert Upper(head) == uhead;
      calc {
        Remove(u, x);
        uhead + Remove(u[1..], x);
        { RemoveUpper(s[1..], x); }
        uhead + Upper(rest);
        { UpperAppend(head, rest); }
        Upper(head + rest);
      }
    }
  }

  lemma LowerCharFacts(c: char)
    ensures LowerChar(LowerChar(c)) == LowerChar(c)
    ensures IsSpace(LowerChar(c)) <==> IsSpace(c)
  {
  }

  lemma LowerIdempotent(s: string)
    ensures Lower(Lower(s)) == Lower(s)
  {
    forall i | 0 <= i < |s| ensures Lower(Lower(s))[i] == Lower(s)[i] {
      LowerCharFacts(s[i]);
    }
  }

  /** Strip(Upper(Strip(s))) is Upper(Strip(s)), so normalising twice changes nothing. */
  lemma UpperStripIdempotent(s: string)
    ensures Upper(Strip(Upper(Strip(s)))) == Upper(Strip(s))
  {
    StripFacts(s);
    UpperKeepsStripped(Strip(s));
    UpperHasNoLowercase(Strip(s));
    UpperIdentity(Upper(Strip(s)));
  }
}
