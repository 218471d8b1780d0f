/** String helpers shared by the writers and the generators: the ASCII model of
    String.ToUpper/ToLower, decimal rendering of integers (Int32.ToString), and the
    positional "{0}", "{1}" substitution the language writers apply to operator templates. */
module Text {

  function UpperChar(c: char): char
  {
    if 'a' <= c <= 'z' then (c as int - 32) as char else c
  }

  function LowerChar(c: char): char
  {
    if 'A' <= c <= 'Z' then (c as int + 32) as char else c
  }

  /** String.ToUpper, restricted to ASCII letters. */
  function Upper(s: string): (r: string)
    ensures |r| == |s|
  {
    if s == [] then [] else [UpperChar(s[0])] + Upper(s[1..])
  }

  /** String.ToLower, restricted to ASCII letters. */
  function Lower(s: string): (r: string)
    ensures |r| == |s|
  {
    if s == [] then [] else [LowerChar(s[0])] + Lower(s[1..])
  }

  /** Upper maps each character on its own. */
  lemma {:induction false} UpperAt(s: string)
    ensures forall i :: 0 <= i < |s| ==> Upper(s)[i] == UpperChar(s[i])
  {
    if s != [] {
      UpperAt(s[1..]);
      assert forall i :: 1 <= i < |s| ==> Upper(s)[i] == Upper(s[1..])[i - 1];
    }
  }

  /** Lower maps each character on its own. */
  lemma {:induction false} LowerAt(s: string)
    ensures forall i :: 0 <= i < |s| ==> Lower(s)[i] == LowerChar(s[i])
  {
    if s != [] {
      LowerAt(s[1..]);
      assert forall i :: 1 <= i < |s| ==> Lower(s)[i] == Lower(s[1..])[i - 1];
    }
  }

  /** Upper-casing twice is upper-casing once. */
  lemma UpperIdempotent(s: string)
    ensures Upper(Upper(s)) == Upper(s)
  {
    UpperAt(s);
    UpperAt(Upper(s));
    assert forall i :: 0 <= i < |s| ==> UpperChar(UpperChar(s[i])) == UpperChar(s[i]);
  }

  /** Lower-casing twice is lower-casing once. */
  lemma LowerIdempotent(s: string)
    ensures Lower(Lower(s)) == Lower(s)
  {
    LowerAt(s);
    LowerAt(Lower(s));
    assert forall i :: 0 <= i < |s| ==> LowerChar(LowerChar(s[i])) == LowerChar(s[i]);
  }

  function DigitChar(d: nat): char
    requires d < 10
  {
    ('0' as int + d) as char
  }

  predicate IsDigit(c: char)
  {
    '0' <= c <= '9'
  }

  /** Decimal text of a natural number, as Int32.ToString writes it. */
  function NatToString(n: nat): (r: string)
    ensures |r| >= 1
    ensures forall i :: 0 <= i < |r| ==> IsDigit(r[i])
    decreases n
  {
    if n < 10 then [DigitChar(n)] else NatToString(n / 10) + [DigitChar(n % 10)]
  }

  /** Decimal text of an integer, with a leading '-' for negative values. */
  function IntToString(i: int): (r: string)
    ensures |r| >= 1
    ensures (r[0] == '-') <==> i < 0
  {
    if i < 0 then "-" + NatToString(-i) else NatToString(i)
  }

  /** True when the text contains no '{', so no placeholder can start inside it. */
  predicate BraceFree(s: string)
  {
    forall i :: 0 <= i < |s| ==> s[i] != '{'
  }

  /** Positional substitution: each "{k}" with a single digit k < |operands| is replaced by
      operands[k]; every other character, and every placeholder without an operand, is kept.
      Substituted operands are not scanned again. */
  function Substitute(template: string, operands: seq<string>): string
    decreases |template|
  {
    if |template| >= 3 && template[0] == '{' && template[2] == '}' && IsDigit(template[1])
       && (template[1] as int - '0' as int) < |operands|
    then operands[template[1] as int - '0' as int] + Substitute(template[3..], operands)
    else if |template| == 0 then ""
    else [template[0]] + Substitute(template[1..], operands)
  }

  /** Brace-free text passes through substitution unchanged. */
  lemma {:induction false} SubstituteBraceFree(plain: string, rest: string, operands: seq<string>)
    requires BraceFree(plain)
    ensures Substitute(plain + rest, operands) == plain + Substitute(rest, operands)
    decreases |plain|
  {
    if |plain| > 0 {
      var t := plain + rest;
      assert t[0] == plain[0] && t[0] != '{';
      assert Substitute(t, operands) == [t[0]] + Substitute(t[1..], operands);
      assert t[1..] == plain[1..] + rest;
      assert BraceFree(plain[1..]) by {
        assert forall i :: 0 <= i < |plain[1..]| ==> plain[1..][i] == plain[i + 1];
      }
      SubstituteBraceFree(plain[1..], rest, operands);
      assert [plain[0]] + (plain[1..] + Substitute(rest, operands)) == plain + Substitute(rest, operands);
    } else {
      assert plain + rest == rest;
    }
  }

  lemma SubstitutePlaceholder(k: nat, rest: string, operands: seq<string>)
    requires k < 10 && k < |operands|
    ensures Substitute(['{', DigitChar(k), '}'] + rest, operands) == operands[k] + Substitute(rest, operands)
  {
    var t := ['{', DigitChar(k), '}'] + rest;
    assert t[3..] == rest;
  }

  /** A binary template "{0}" + infix + "{1}" + suffix puts the left operand first and the
      right operand second, with the template's own text between and after them. */
  lemma SubstituteBinary(infix: string, suffix: string, a: string, b: string)
    requires BraceFree(infix) && BraceFree(suffix)
    ensures Substitute("{0}" + infix + "{1}" + suffix, [a, b]) == a + infix + b + suffix
  {
    var xs := [a, b];
    assert "{0}" + infix + "{1}" + suffix == ['{', DigitChar(0), '}'] + (infix + ("{1}" + suffix));
    SubstitutePlaceholder(0, infix + ("{1}" + suffix), xs);
    SubstituteBraceFree(infix, "{1}" + suffix, xs);
    assert "{1}" + suffix == ['{', DigitChar(1), '}'] + suffix;
    SubstitutePlaceholder(1, suffix, xs);
    SubstituteBraceFree(suffix, "", xs);
    assert suffix + "" == suffix;
  }
}
