// Python's `str.strip`, and what it calls whitespace.
module Text {
  predicate IsSpace(c: char) {
    var n := c as int;
    || 9 <= n <= 13 || 28 <= n <= 32 || n == 0x85 || n == 0xA0 || n == 0x1680
    || 0x2000 <= n <= 0x200A || n == 0x2028 || n == 0x2029 || n == 0x202F || n == 0x205F || n == 0x3000
  }

  /** `not text.strip()` */
  predicate Blank(text: string) {
    forall i :: 0 <= i < |text| ==> IsSpace(text[i])
  }

  /** `str.strip()` */
  function Strip(s: string): string {
    if s == "" then ""
    else if IsSpace(s[0]) then Strip(s[1..])
    else if IsSpace(s[|s| - 1]) then Strip(s[..|s| - 1])
    else s
  }

  /** The characters `str.strip` takes away. */
  const WHITESPACE: set<int> :=
    {9, 10, 11, 12, 13, 28, 29, 30, 31, 32, 0x85, 0xA0, 0x1680, 0x2000, 0x2001, 0x2002, 0x2003, 0x2004, 0x2005,
     0x2006, 0x2007, 0x2008, 0x2009, 0x200A, 0x2028, 0x2029, 0x202F, 0x205F, 0x3000}

  /** The text says something: it has a character that is not whitespace. */
  predicate Speaks(text: string) {
    exists c :: c in text && c as int !in WHITESPACE
  }

  lemma BlankIsSilent(text: string)
    ensures Blank(text) <==> !Speaks(text)
  {
    if Blank(text) {
      forall c | c in text ensures c as int in WHITESPACE {
        var i :| 0 <= i < |text| && text[i] == c;
        assert IsSpace(text[i]);
      }
    }
    if !Speaks(text) {
      forall i | 0 <= i < |text| ensures IsSpace(text[i]) { assert text[i] in text; }
    }
  }

  lemma {:induction false} StripIsEmptyIff(s: string)
    ensures Strip(s) == "" <==> Blank(s)
    decreases |s|
  {
    if s != "" {
      if IsSpace(s[0]) {
        StripIsEmptyIff(s[1..]);
        assert forall i :: 1 <= i < |s| ==> s[i] == s[1..][i - 1];
      } else if IsSpace(s[|s| - 1]) {
        StripIsEmptyIff(s[..|s| - 1]);
        assert s[..|s| - 1][0] == s[0];
      }
    }
  }

  lemma {:induction false} StripEnds(s: string)
    requires Strip(s) != ""
    ensures !IsSpace(Strip(s)[0]) && !IsSpace(Strip(s)[|Strip(s)| - 1])
    decreases |s|
  {
    if IsSpace(s[0]) { StripEnds(s[1..]); } else if IsSpace(s[|s| - 1]) { StripEnds(s[..|s| - 1]); }
  }

  lemma {:induction false} StripSplits(s: string) returns (before: string, after: string)
    ensures s == before + Strip(s) + after && Blank(before) && Blank(after)
    decreases |s|
  {
    before, after := "", "";
    if s != "" {
      if IsSpace(s[0]) {
        before, after := StripSplits(s[1..]);
        before := [s[0]] + before;
      } else if IsSpace(s[|s| - 1]) {
        before, after := StripSplits(s[..|s| - 1]);
        after := after + [s[|s| - 1]];
        assert s == s[..|s| - 1] + [s[|s| - 1]];
      }
    }
  }

  /** Stripping takes whitespace off both ends and nothing else, leaves none there, and leaves nothing only of a
      text that says nothing. */
  lemma StripIsTheMiddle(s: string) returns (before: string, after: string)
    ensures s == before + Strip(s) + after && !Speaks(before) && !Speaks(after)
    ensures Strip(s) != "" ==> Strip(s)[0] as int !in WHITESPACE && Strip(s)[|Strip(s)| - 1] as int !in WHITESPACE
    ensures Strip(s) == "" <==> !Speaks(s)
  {
    before, after := StripSplits(s);
    BlankIsSilent(before);
    BlankIsSilent(after);
    StripIsEmptyIff(s);
    BlankIsSilent(s);
    if Strip(s) != "" { StripEnds(s); }
  }
}
