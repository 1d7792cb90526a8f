/** The few string operations of the standard library that the components rely on. */
module Text {
  /** White space as Unicode defines it. */
  predicate IsSpace(c: char) {
    || '\t' <= c <= '\r' || c == ' ' || c == '\U{0085}' || c == '\U{00A0}' || c == '\U{1680}'
    || '\U{2000}' <= c <= '\U{200A}' || c == '\U{2028}' || c == '\U{2029}' || c == '\U{202F}'
    || c == '\U{205F}' || c == '\U{3000}'
  }

  function TrimLeft(s: string): string {
    if s != "" && IsSpace(s[0]) then TrimLeft(s[1..]) else s
  }

  function TrimRight(s: string): string {
    if s != "" && IsSpace(s[|s| - 1]) then TrimRight(s[..|s| - 1]) else s
  }

  function TrimSpace(s: string): string {
    TrimRight(TrimLeft(s))
  }

  function ToLowerChar(c: char): char {
    if 'A' <= c <= 'Z' then ((c as int) + 32) as char else c
  }

  function ToLower(s: string): (r: string)
    ensures |r| == |s|
  {
    seq(|s|, i requires 0 <= i < |s| => ToLowerChar(s[i]))
  }

  /** The length of the leading run of characters that are not white space. */
  function WordLength(s: string): (n: nat)
    ensures n <= |s|
  {
    if s == "" || IsSpace(s[0]) then 0 else 1 + WordLength(s[1..])
  }

  lemma {:induction false} TrimLeftShorter(s: string)
    ensures |TrimLeft(s)| <= |s| && (TrimLeft(s) != "" ==> !IsSpace(TrimLeft(s)[0]))
  {
    if s != "" && IsSpace(s[0]) {
      TrimLeftShorter(s[1..]);
    }
  }

  /** The words of a string, separated by runs of white space. */
  function Fields(s: string): seq<string>
    decreases |s|
  {
    TrimLeftShorter(s);
    var t := TrimLeft(s);
    if t == "" then [] else [t[..WordLength(t)]] + Fields(t[WordLength(t)..])
  }

  function Split(s: string, sep: char): (parts: seq<string>)
    ensures parts != []
  {
    if s == "" then [""]
    else
      var rest := Split(s[1..], sep);
      if s[0] == sep then [""] + rest else [[s[0]] + rest[0]] + rest[1..]
  }

  /** A nonempty string without white space. */
  predicate IsWord(s: string) {
    s != "" && forall c <- s :: !IsSpace(c)
  }

  lemma {:induction false} WordThenSpace(w: string, rest: string)
    requires (forall c <- w :: !IsSpace(c)) && (rest == "" || IsSpace(rest[0]))
    ensures WordLength(w + rest) == |w|
  {
    if w == "" {
      assert w + rest == rest;
    } else {
      WordThenSpace(w[1..], rest);
      assert (w + rest)[1..] == w[1..] + rest;
    }
  }

  lemma FieldsFirst(w: string, rest: string)
    requires IsWord(w) && (rest == "" || IsSpace(rest[0]))
    ensures Fields(w + rest) == [w] + Fields(rest)
  {
    WordThenSpace(w, rest);
    assert (w + rest)[0] == w[0];
    assert (w + rest)[..|w|] == w && (w + rest)[|w|..] == rest;
  }

  /** Two words with two blanks between them are read back as those words. */
  lemma FieldsOfPair(a: string, b: string)
    requires IsWord(a) && IsWord(b)
    ensures Fields(a + "  " + b) == [a, b]
  {
    assert a + "  " + b == a + ("  " + b);
    FieldsFirst(a, "  " + b);
    assert ("  " + b)[1..] == " " + b && (" " + b)[1..] == b;
    assert TrimLeft(b) == b && TrimLeft(" " + b) == b && TrimLeft("  " + b) == b;
    assert b + "" == b;
    FieldsFirst(b, "");
  }

  lemma {:induction false} FieldsIgnoreTrailingSpace(s: string, c: char)
    requires IsSpace(c)
    ensures Fields(s + [c]) == Fields(s)
    decreases |s|
  {
    if s == "" {
      assert s + [c] == [c] && [c][1..] == "";
    } else if IsSpace(s[0]) {
      assert (s + [c])[1..] == s[1..] + [c];
      FieldsIgnoreTrailingSpace(s[1..], c);
      assert TrimLeft(s) == TrimLeft(s[1..]) && TrimLeft(s + [c]) == TrimLeft(s[1..] + [c]);
    } else {
      var n := WordLength(s);
      WordStops(s);
      WordThenSpace(s[..n], s[n..]);
      WordThenSpace(s[..n], s[n..] + [c]);
      assert s[..n] + s[n..] == s && s[..n] + (s[n..] + [c]) == s + [c];
      assert (s + [c])[n..] == s[n..] + [c] && (s + [c])[..n] == s[..n];
      FieldsIgnoreTrailingSpace(s[n..], c);
    }
  }

  lemma {:induction false} WordStops(s: string)
    ensures forall i :: 0 <= i < WordLength(s) ==> !IsSpace(s[i])
    ensures WordLength(s) == |s| || IsSpace(s[WordLength(s)])
    ensures s != "" && !IsSpace(s[0]) ==> WordLength(s) > 0
  {
    hide IsSpace;
    if s != "" && !IsSpace(s[0]) {
      WordStops(s[1..]);
      forall i | 0 <= i < WordLength(s) ensures !IsSpace(s[i]) {
        assert i > 0 ==> s[i] == s[1..][i - 1];
      }
    }
  }

  /** Trimming a line does not change its words. */
  lemma FieldsOfTrimmed(s: string)
    ensures Fields(TrimSpace(s)) == Fields(s)
  {
    FieldsOfTrimLeft(s);
    FieldsOfTrimRight(TrimLeft(s));
  }

  lemma {:induction false} FieldsOfTrimRight(s: string)
    ensures Fields(TrimRight(s)) == Fields(s)
  {
    if s != "" && IsSpace(s[|s| - 1]) {
      FieldsOfTrimRight(s[..|s| - 1]);
      FieldsIgnoreTrailingSpace(s[..|s| - 1], s[|s| - 1]);
      assert s[..|s| - 1] + [s[|s| - 1]] == s;
    }
  }

  lemma {:induction false} FieldsOfTrimLeft(s: string)
    ensures Fields(TrimLeft(s)) == Fields(s)
  {
    TrimLeftShorter(s);
    assert TrimLeft(TrimLeft(s)) == TrimLeft(s);
  }

  /** Splitting takes off a line up to its separator. */
  lemma {:induction false} SplitOff(line: string, rest: string, sep: char)
    requires sep !in line
    ensures Split(line + [sep] + rest, sep) == [line] + Split(rest, sep)
  {
    if line == "" {
      assert (line + [sep] + rest)[1..] == rest;
    } else {
      SplitOff(line[1..], rest, sep);
      assert line[0] in line && [line[0]] + line[1..] == line;
      assert (line + [sep] + rest)[1..] == line[1..] + [sep] + rest;
    }
  }

  /** Normal form of provider names and idempotency keys. */
  function Normalize(s: string): string {
    ToLower(TrimSpace(s))
  }

  lemma {:induction false} TrimRightShorter(s: string)
    ensures |TrimRight(s)| <= |s| && TrimRight(s) == s[..|TrimRight(s)|]
    ensures TrimRight(s) != "" ==> !IsSpace(TrimRight(s)[|TrimRight(s)| - 1])
  {
    if s != "" && IsSpace(s[|s| - 1]) {
      TrimRightShorter(s[..|s| - 1]);
    }
  }

  lemma {:induction false} TrimLeftDrops(s: string)
    ensures var n := |s| - |TrimLeft(s)|;
            n >= 0 && TrimLeft(s) == s[n..] && forall i :: 0 <= i < n ==> IsSpace(s[i])
  {
    hide IsSpace;
    if s != "" && IsSpace(s[0]) {
      TrimLeftDrops(s[1..]);
      var n := |s| - |TrimLeft(s)|;
      forall i | 0 <= i < n ensures IsSpace(s[i]) {
        assert i > 0 ==> s[i] == s[1..][i - 1];
      }
    }
  }

  lemma {:induction false} TrimRightDrops(s: string)
    ensures |TrimRight(s)| <= |s| && TrimRight(s) == s[..|TrimRight(s)|]
    ensures forall i :: |TrimRight(s)| <= i < |s| ==> IsSpace(s[i])
  {
    hide IsSpace;
    if s != "" && IsSpace(s[|s| - 1]) {
      TrimRightDrops(s[..|s| - 1]);
    }
  }

  /** The normal form of a string has no capital letter and no white space around it, and it is
      the string without its surrounding white space, capitals aside. */
  lemma NormalizeExactly(s: string)
    ensures var n := Normalize(s);
            && (forall i :: 0 <= i < |n| ==> !('A' <= n[i] <= 'Z'))
            && (n != "" ==> !IsSpace(n[0]) && !IsSpace(n[|n| - 1]))
            && exists lead: nat :: SurroundedAt(s, n, lead)
  {
    hide IsSpace, TrimLeft, TrimRight, ToLower, SurroundedAt;
    TrimLeftDrops(s);
    TrimLeftShorter(s);
    var t, lead: nat := TrimLeft(s), |s| - |TrimLeft(s)|;
    TrimRightDrops(t);
    TrimRightShorter(t);
    LowerExactly(TrimRight(t));
    Surrounded(s, lead, TrimRight(t));
  }

  lemma Surrounded(s: string, lead: nat, word: string)
    requires lead + |word| <= |s| && s[lead..lead + |word|] == word
    requires (forall i :: 0 <= i < lead ==> IsSpace(s[i])) && forall i :: |word| <= i < |s| - lead ==> IsSpace(s[lead..][i])
    ensures SurroundedAt(s, ToLower(word), lead)
  {
    hide IsSpace;
    forall i | lead + |word| <= i < |s| ensures IsSpace(s[i]) {
      assert s[i] == s[lead..][i - lead];
    }
    forall i | 0 <= i < |word| ensures ToLower(word)[i] == ToLowerChar(s[lead + i]) {
      assert s[lead + i] == s[lead..lead + |word|][i];
    }
  }

  /** From some place on `s` reads like `n`, but for capitals, with white space around it. */
  predicate SurroundedAt(s: string, n: string, lead: nat) {
    && lead + |n| <= |s|
    && (forall i :: 0 <= i < lead ==> IsSpace(s[i])) && (forall i :: lead + |n| <= i < |s| ==> IsSpace(s[i]))
    && forall i :: 0 <= i < |n| ==>
         if 'A' <= s[lead + i] <= 'Z' then n[i] as int == s[lead + i] as int + 32 else n[i] == s[lead + i]
  }

  lemma LowerExactly(s: string)
    ensures forall i :: 0 <= i < |s| ==> IsSpace(ToLower(s)[i]) == IsSpace(s[i]) && !('A' <= ToLower(s)[i] <= 'Z')
  {
  }

  /** Normalising twice changes nothing more. */
  lemma NormalizeTwice(s: string)
    ensures Normalize(Normalize(s)) == Normalize(s)
  {
    TrimLeftShorter(s);
    var t := TrimLeft(s);
    TrimRightShorter(t);
    var n := Normalize(s);
    assert n != "" ==> n[0] == ToLowerChar(t[0]) && n[|n| - 1] == ToLowerChar(TrimRight(t)[|n| - 1]);
    assert TrimSpace(n) == n;
    assert ToLower(n) == n;
  }
}
