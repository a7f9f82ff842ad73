// Trimming as the program's validation does it: white space in the sense of Unicode.
module Text {
  predicate IsSpace(c: char) {
    || c == '\t' || c == '\n' || c == '\U{0b}' || c == '\U{0c}' || c == '\r' || c == ' '
    || c == '\U{85}' || c == '\U{a0}' || c == '\U{1680}' || '\U{2000}' <= c <= '\U{200a}'
    || c == '\U{2028}' || c == '\U{2029}' || c == '\U{202f}' || c == '\U{205f}' || c == '\U{3000}'
  }

  // By code point: the 25 of the White_Space property of the Unicode Character Database.
  lemma SpacesByCodePoint(c: char)
    ensures IsSpace(c) <==>
              || 0x09 <= c as int <= 0x0D || 0x2000 <= c as int <= 0x200A
              || c as int in {0x20, 0x85, 0xA0, 0x1680, 0x2028, 0x2029, 0x202F, 0x205F, 0x3000}
  {
  }

  function TrimLeft(s: string): string {
    if s != "" && IsSpace(s[0]) then TrimLeft(s[1..]) else s
  }

  function TrimRight(s: string): string {
    if s != "" && IsSpace(s[|s| - 1]) then TrimRight(s[..|s| - 1]) else s
  }

  predicate AllSpace(s: string) {
    forall c :: c in s ==> IsSpace(c)
  }

  predicate NoSpaceAtEnds(s: string) {
    s != "" ==> !IsSpace(s[0]) && !IsSpace(s[|s| - 1])
  }

  // Only white space is cut off at the ends, and all of it.
  function TrimSpace(s: string): (r: string)
    ensures NoSpaceAtEnds(r)
    ensures exists left, right :: s == left + r + right && AllSpace(left) && AllSpace(right)
  {
    TrimLeftCuts(s);
    TrimRightCuts(TrimLeft(s));
    var left := s[..|s| - |TrimLeft(s)|];
    var r := TrimRight(TrimLeft(s));
    var right := TrimLeft(s)[|r|..];
    assert s == left + r + right;
    r
  }

  lemma {:induction false} TrimLeftCuts(s: string)
    ensures |TrimLeft(s)| <= |s|
    ensures s == s[..|s| - |TrimLeft(s)|] + TrimLeft(s) && AllSpace(s[..|s| - |TrimLeft(s)|])
    ensures TrimLeft(s) != "" ==> !IsSpace(TrimLeft(s)[0])
  {
    hide IsSpace;
    if s != "" && IsSpace(s[0]) {
      TrimLeftCuts(s[1..]);
      var rest := s[1..];
      assert s[..|s| - |TrimLeft(s)|] == [s[0]] + rest[..|rest| - |TrimLeft(rest)|];
    }
  }

  lemma {:induction false} TrimRightCuts(s: string)
    ensures |TrimRight(s)| <= |s|
    ensures s == TrimRight(s) + s[|TrimRight(s)|..] && AllSpace(s[|TrimRight(s)|..])
    ensures TrimRight(s) != "" ==> TrimRight(s)[0] == s[0] && !IsSpace(TrimRight(s)[|TrimRight(s)| - 1])
  {
    hide IsSpace;
    if s != "" && IsSpace(s[|s| - 1]) {
      var rest := s[..|s| - 1];
      TrimRightCuts(rest);
      assert s[|TrimRight(s)|..] == rest[|TrimRight(rest)|..] + [s[|s| - 1]];
    }
  }

  // That leaves no choice: the trimmed string is the only one of which both hold.
  lemma TrimSpaceIsUnique(left: string, r: string, right: string)
    requires AllSpace(left) && AllSpace(right) && NoSpaceAtEnds(r)
    ensures TrimSpace(left + r + right) == r
  {
    hide IsSpace, TrimLeft, TrimRight;
    assert left + r + right == left + (r + right);
    if r == "" {
      var s := left + right;
      assert left + r + right == s && s + "" == s;
      TrimLeftOf(s, "");
    } else {
      TrimLeftOf(left, r + right);
      TrimRightOf(r, right);
    }
  }

  lemma {:induction false} TrimLeftOf(left: string, rest: string)
    requires AllSpace(left) && (rest != "" ==> !IsSpace(rest[0]))
    ensures TrimLeft(left + rest) == rest
  {
    hide IsSpace;
    if left == "" {
      assert left + rest == rest;
    } else {
      TrimLeftOf(left[1..], rest);
      assert (left + rest)[1..] == left[1..] + rest;
    }
  }

  lemma {:induction false} TrimRightOf(rest: string, right: string)
    requires AllSpace(right) && (rest != "" ==> !IsSpace(rest[|rest| - 1]))
    ensures TrimRight(rest + right) == rest
  {
    hide IsSpace;
    if right == "" {
      assert rest + right == rest;
    } else {
      var n := |right| - 1;
      TrimRightOf(rest, right[..n]);
      assert (rest + right)[..|rest + right| - 1] == rest + right[..n];
    }
  }
}
