/** Whitespace trimming as Rust's `str::trim` does it: the code points with property White_Space. */
module Text {
  predicate IsWhitespace(c: char) {
    var k := c as int;
    || 9 <= k <= 13 || k == 0x20 || k == 0x85 || k == 0xA0 || k == 0x1680 || 0x2000 <= k <= 0x200A
    || k == 0x2028 || k == 0x2029 || k == 0x202F || k == 0x205F || k == 0x3000
  }

  function TrimStart(s: string): string {
    if s != [] && IsWhitespace(s[0]) then TrimStart(s[1..]) else s
  }

  function TrimEnd(s: string): string {
    if s != [] && IsWhitespace(s[|s| - 1]) then TrimEnd(s[..|s| - 1]) else s
  }

  function Trim(s: string): string { TrimEnd(TrimStart(s)) }

  /** The code points with property White_Space, one by one. */
  lemma WhitespaceExactly(c: char)
    ensures IsWhitespace(c) <==>
              c as int in {0x09, 0x0A, 0x0B, 0x0C, 0x0D, 0x20, 0x85, 0xA0, 0x1680, 0x2000, 0x2001, 0x2002, 0x2003, 0x2004,
                           0x2005, 0x2006, 0x2007, 0x2008, 0x2009, 0x200A, 0x2028, 0x2029, 0x202F, 0x205F, 0x3000}
  {
  }

  predicate Blank(s: string) { forall i | 0 <= i < |s| :: IsWhitespace(s[i]) }

  predicate Solid(s: string) { s != [] && !IsWhitespace(s[0]) && !IsWhitespace(s[|s| - 1]) }

  lemma {:induction false} StartAround(a: string, s: string)
    requires Blank(a) && s != [] && !IsWhitespace(s[0])
    ensures TrimStart(a + s) == s
  {
    if a == [] {
      assert a + s == s;
    } else {
      assert (a + s)[1..] == a[1..] + s && (a + s)[0] == a[0];
      StartAround(a[1..], s);
    }
  }

  lemma {:induction false} EndAround(s: string, b: string)
    requires Blank(b) && s != [] && !IsWhitespace(s[|s| - 1])
    ensures TrimEnd(s + b) == s
  {
    if b == [] {
      assert s + b == s;
    } else {
      var t, n := s + b, |b| - 1;
      assert t[..|t| - 1] == s + b[..n] && t[|t| - 1] == b[n];
      EndAround(s, b[..n]);
    }
  }

  /** Trimming removes exactly the whitespace around a text. */
  lemma TrimAround(a: string, s: string, b: string)
    requires Blank(a) && Solid(s) && Blank(b)
    ensures Trim(a + s + b) == s
  {
    assert a + s + b == a + (s + b);
    StartAround(a, s + b);
    EndAround(s, b);
  }

  lemma {:induction false} TrimBlank(s: string)
    requires Blank(s)
    ensures Trim(s) == ""
  {
    if s != "" {
      TrimBlank(s[1..]);
    }
  }

  lemma {:induction false} StartKeeps(s: string)
    requires !Blank(s)
    ensures TrimStart(s) != "" && !IsWhitespace(TrimStart(s)[0])
  {
    if IsWhitespace(s[0]) {
      StartKeeps(s[1..]);
    }
  }

  lemma {:induction false} EndKeeps(s: string)
    requires s != "" && !IsWhitespace(s[0])
    ensures TrimEnd(s) != ""
  {
    if IsWhitespace(s[|s| - 1]) {
      EndKeeps(s[..|s| - 1]);
    }
  }

  lemma BlankIff(s: string)
    ensures Trim(s) == "" <==> Blank(s)
  {
    if Blank(s) {
      TrimBlank(s);
    } else {
      StartKeeps(s);
      EndKeeps(TrimStart(s));
    }
  }
}
