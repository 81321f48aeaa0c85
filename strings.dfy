/** The few java.lang.String operations the actions rely on, over ASCII case folding. */
module Strings {

  /** toLowerCase on one character, restricted to ASCII letters. */
  function LowerChar(c: char): char
  {
    if 'A' <= c <= 'Z' then (c as int - 'A' as int + 'a' as int) as char else c
  }

  /** String.toLowerCase, restricted to ASCII letters. */
  function Lower(s: string): string
  {
    seq(|s|, i requires 0 <= i < |s| => LowerChar(s[i]))
  }

  /** String.equalsIgnoreCase, restricted to ASCII letters. */
  predicate EqualsIgnoreCase(a: string, b: string)
  {
    Lower(a) == Lower(b)
  }

  /** String.contains, scanning from the left. */
  predicate Contains(s: string, sub: string)
    decreases |s|
  {
    if |s| < |sub| then false
    else s[..|sub|] == sub || Contains(s[1..], sub)
  }

  /** `sub` occurs in `s` starting at index `i`. */
  predicate OccursAt(s: string, sub: string, i: int)
  {
    0 <= i && i + |sub| <= |s| && s[i..i + |sub|] == sub
  }

  /** The scan finds `sub` exactly when it occurs somewhere in `s`. */
  lemma {:induction false} ContainsIffOccurs(s: string, sub: string)
    ensures Contains(s, sub) <==> exists i :: OccursAt(s, sub, i)
    decreases |s|
  {
    if |s| < |sub| {
    } else if s[..|sub|] == sub {
      assert OccursAt(s, sub, 0);
    } else {
      ContainsIffOccurs(s[1..], sub);
      if Contains(s[1..], sub) {
        var j :| OccursAt(s[1..], sub, j);
        assert s[1..][j..j + |sub|] == s[j + 1..j + 1 + |sub|];
        assert OccursAt(s, sub, j + 1);
      }
      if i :| OccursAt(s, sub, i) {
        assert i != 0;
        assert s[1..][i - 1..i - 1 + |sub|] == s[i..i + |sub|];
        assert OccursAt(s[1..], sub, i - 1);
      }
    }
  }

  /** The leading half of String.trim: drops characters at or below U+0020. */
  function TrimStart(s: string): string
    decreases |s|
  {
    if |s| > 0 && s[0] <= ' ' then TrimStart(s[1..]) else s
  }

  /** The trailing half of String.trim. */
  function TrimEnd(s: string): string
    decreases |s|
  {
    if |s| > 0 && s[|s| - 1] <= ' ' then TrimEnd(s[..|s| - 1]) else s
  }

  /** String.trim. */
  function Trim(s: string): string
  {
    TrimEnd(TrimStart(s))
  }

  /** `s.trim().isEmpty()`. */
  predicate IsBlank(s: string)
  {
    Trim(s) == ""
  }

  lemma {:induction false} TrimStartEmptyIff(s: string)
    ensures TrimStart(s) == "" <==> forall i :: 0 <= i < |s| ==> s[i] <= ' '
    ensures TrimStart(s) != "" ==> TrimStart(s)[0] > ' '
    decreases |s|
  {
    if |s| > 0 && s[0] <= ' ' {
      TrimStartEmptyIff(s[1..]);
      assert forall i :: 1 <= i < |s| ==> s[i] == s[1..][i - 1];
    }
  }

  lemma {:induction false} TrimEndKeepsFirst(s: string)
    requires |s| > 0 && s[0] > ' '
    ensures TrimEnd(s) != ""
    decreases |s|
  {
    if s[|s| - 1] <= ' ' {
      TrimEndKeepsFirst(s[..|s| - 1]);
    }
  }

  /** A string is blank exactly when every character is at or below U+0020. */
  lemma BlankIffAllControlOrSpace(s: string)
    ensures IsBlank(s) <==> forall i :: 0 <= i < |s| ==> s[i] <= ' '
  {
    TrimStartEmptyIff(s);
    if TrimStart(s) != "" {
      TrimEndKeepsFirst(TrimStart(s));
    }
  }
}
