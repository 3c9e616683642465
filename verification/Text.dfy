/** Email and name normalisation on ASCII text. */
module Text {
  import opened Core

  predicate IsSpace(c: char) {
    c == ' ' || '\t' <= c <= '\r'
  }

  function LowerChar(c: char): (l: char) {
    if 'A' <= c <= 'Z' then c + 32 as char else c
  }

  function ToLower(s: string): (l: string)
    ensures |l| == |s| && forall i :: 0 <= i < |s| ==> l[i] == LowerChar(s[i])
  {
    seq(|s|, i requires 0 <= i < |s| => LowerChar(s[i]))
  }

  function TrimLeft(s: string): string {
    if s != "" && IsSpace(s[0]) then TrimLeft(s[1..]) else s
  }

  function TrimRight(s: string): string {
    if s != "" && IsSpace(s[|s| - 1]) then TrimRight(s[..|s| - 1]) else s
  }

  function TrimSpace(s: string): string {
    TrimRight(TrimLeft(s))
  }

  predicate AllSpace(s: string) {
    forall i :: 0 <= i < |s| ==> IsSpace(s[i])
  }

  predicate NoOuterSpace(s: string) {
    s != "" ==> !IsSpace(s[0]) && !IsSpace(s[|s| - 1])
  }

  /** `addressOk` stands for net/mail's parser, which is not part of this model. */
  function NormalizeEmail(addressOk: string -> bool, e: string): Result<string> {
    var t := TrimSpace(ToLower(e));
    if t == "" then Err(EmailEmpty)
    else if !addressOk(t) then Err(EmailInvalid)
    else Ok(t)
  }

  // ----- facts about trimming and lowering -----

  lemma {:induction false} TrimLeftIsSuffix(s: string) returns (k: nat)
    ensures k <= |s| && TrimLeft(s) == s[k..] && AllSpace(s[..k])
    ensures k < |s| ==> !IsSpace(s[k])
  {
    k := 0;
    if s != "" && IsSpace(s[0]) {
      k := TrimLeftIsSuffix(s[1..]);
      assert s[..k + 1] == [s[0]] + s[1..][..k] && s[k + 1..] == s[1..][k..];
      k := k + 1;
    }
  }

  lemma {:induction false} TrimRightIsPrefix(s: string) returns (k: nat)
    ensures k <= |s| && TrimRight(s) == s[..k] && AllSpace(s[k..])
    ensures k > 0 ==> !IsSpace(s[k - 1])
  {
    k := |s|;
    if s != "" && IsSpace(s[|s| - 1]) {
      var n := |s| - 1;
      k := TrimRightIsPrefix(s[..n]);
      assert s[k..] == s[..n][k..] + [s[n]] && s[..k] == s[..n][..k];
    }
  }

  /** Trimming removes the outer spaces and nothing else: what it takes off at either end is all space. */
  lemma TrimSpaceShape(s: string) returns (i: nat, j: nat)
    ensures i <= j <= |s| && TrimSpace(s) == s[i..j] && AllSpace(s[..i]) && AllSpace(s[j..])
    ensures NoOuterSpace(TrimSpace(s))
  {
    i := TrimLeftIsSuffix(s);
    var k := TrimRightIsPrefix(s[i..]);
    j := i + k;
    assert s[i..][..k] == s[i..j] && s[i..][k..] == s[j..];
    assert k > 0 ==> s[i..j][0] == s[i] && s[i..j][k - 1] == s[i..][k - 1];
  }

  lemma TrimmedIsFixed(s: string)
    requires NoOuterSpace(s)
    ensures TrimSpace(s) == s
  {
  }

  /**
   * Whatever normalisation accepts is a non-empty fixed point of it: no outer space,
   * no upper-case letter, and normalising again changes nothing.
   */
  lemma NormalizedIsFixedPoint(addressOk: string -> bool, e: string)
    requires NormalizeEmail(addressOk, e).Ok?
    ensures var n := NormalizeEmail(addressOk, e).value;
            && n != "" && NoOuterSpace(n) && ToLower(n) == n
            && NormalizeEmail(addressOk, n) == Ok(n)
  {
    var l := ToLower(e);
    var n := TrimSpace(l);
    var i, j := TrimSpaceShape(l);
    forall k | 0 <= k < |n|
      ensures LowerChar(n[k]) == n[k]
    {
      assert n[k] == l[i + k] == LowerChar(e[i + k]);
    }
    assert ToLower(n) == n;
    TrimmedIsFixed(n);
  }


  // ----- what normalisation does, letter by letter -----

  const BLANKS := " \t\n\r\U{000B}\U{000C}"
  const CAPITALS := "ABCDEFGHIJKLMNOPQRSTUVWXYZ"
  const SMALL := "abcdefghijklmnopqrstuvwxyz"

  predicate BlankChar(c: char) {
    c in BLANKS
  }

  predicate Blank(s: string) {
    forall i :: 0 <= i < |s| ==> BlankChar(s[i])
  }

  /** The small letter in the capital's place of the alphabet; anything else stays as it is. */
  predicate Lowers(c: char, l: char) {
    && (c !in CAPITALS ==> l == c)
    && (forall m :: 0 <= m < 26 && CAPITALS[m] == c ==> l == SMALL[m])
  }

  lemma BlanksAreSpaces(c: char)
    ensures IsSpace(c) <==> BlankChar(c)
  {
    assert BLANKS == [' ', '\t', '\n', '\r', '\U{000B}', '\U{000C}'];
  }

  lemma LettersAreInOrder(m: nat)
    requires m < 26
    ensures CAPITALS[m] as int == 'A' as int + m && SMALL[m] as int == 'a' as int + m
  {
  }

  lemma LowerCharMeans(c: char)
    ensures Lowers(c, LowerChar(c))
  {
    if 'A' <= c <= 'Z' {
      LettersAreInOrder(c as int - 'A' as int);
    }
    forall m: nat | m < 26 && CAPITALS[m] == c ensures LowerChar(c) == SMALL[m] {
      LettersAreInOrder(m);
    }
  }

  /** What trimming leaves: the text between its first and last character that is no blank. */
  lemma TrimSpaceMeans(s: string) returns (i: nat, j: nat)
    ensures i <= j <= |s| && TrimSpace(s) == s[i..j] && Blank(s[..i]) && Blank(s[j..])
    ensures i < j ==> !BlankChar(s[i]) && !BlankChar(s[j - 1])
    ensures TrimSpace(s) == "" <==> Blank(s)
  {
    i, j := TrimSpaceShape(s);
    forall c: char ensures IsSpace(c) <==> BlankChar(c) {
      BlanksAreSpaces(c);
    }
    hide IsSpace, TrimSpace, BlankChar;
    assert i < j ==> s[i..j][0] == s[i] && s[i..j][j - i - 1] == s[j - 1];
    assert s == s[..i] + s[i..j] + s[j..];
  }

  /** Lower-casing keeps every character but the capitals, and what is blank stays where it is. */
  lemma ToLowerMeans(e: string)
    ensures |ToLower(e)| == |e|
    ensures forall k :: 0 <= k < |e| ==> Lowers(e[k], ToLower(e)[k]) && (BlankChar(e[k]) <==> BlankChar(ToLower(e)[k]))
  {
    hide Lowers;
    forall k | 0 <= k < |e| ensures Lowers(e[k], ToLower(e)[k]) && (BlankChar(e[k]) <==> BlankChar(ToLower(e)[k])) {
      LowerCharMeans(e[k]);
      BlanksAreSpaces(e[k]);
      BlanksAreSpaces(LowerChar(e[k]));
    }
  }

  /** The trimmed, lowered text: the part of the input between its outer blanks, capitals made small. */
  lemma TrimmedLowerMeans(e: string) returns (i: nat, j: nat)
    ensures i <= j <= |e| && Blank(e[..i]) && Blank(e[j..])
    ensures i < j ==> !BlankChar(e[i]) && !BlankChar(e[j - 1])
    ensures var n := TrimSpace(ToLower(e));
            && |n| == j - i && (forall k :: 0 <= k < |n| ==> Lowers(e[i + k], n[k]))
            && (n == "" <==> Blank(e))
  {
    ToLowerMeans(e);
    var l := ToLower(e);
    hide Lowers, TrimSpace, ToLower, BlankChar;
    i, j := TrimSpaceMeans(l);
    assert forall k :: 0 <= k < i ==> l[..i][k] == l[k];
    assert forall k :: 0 <= k < |l| - j ==> l[j..][k] == l[j + k];
  }

  /**
   * The whole of normalisation, error by error: blank text is empty, other text is trimmed, its capitals
   * become the small letters in the same place and no other character changes; what the address parser
   * then rejects is invalid.
   */
  lemma NormalizeEmailMeans(addressOk: string -> bool, e: string) returns (i: nat, j: nat, n: string)
    ensures i <= j <= |e| && Blank(e[..i]) && Blank(e[j..])
    ensures i < j ==> !BlankChar(e[i]) && !BlankChar(e[j - 1])
    ensures |n| == j - i && forall k :: 0 <= k < |n| ==> Lowers(e[i + k], n[k])
    ensures NormalizeEmail(addressOk, e)
         == if Blank(e) then Err(EmailEmpty) else if !addressOk(n) then Err(EmailInvalid) else Ok(n)
  {
    i, j := TrimmedLowerMeans(e);
    n := TrimSpace(ToLower(e));
  }
}
