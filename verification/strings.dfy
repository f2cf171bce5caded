/** The handful of Python `str` operations the core relies on, over ASCII text:
    code-point ordering (`<` on `str`, used by `sorted`), `lower`, `strip`, `split`
    without arguments, `" ".join`, slicing a prefix and the substring test `in`. */
module Strings {

  // ---------------------------------------------------------------------------
  // Ordering

  /** Python's `a < b` on strings: lexicographic by code point, a proper prefix first. */
  predicate Less(a: string, b: string)
    decreases |a|
  {
    if |a| == 0 then |b| > 0
    else if |b| == 0 then false
    else if a[0] == b[0] then Less(a[1..], b[1..])
    else a[0] < b[0]
  }

  predicate LessEq(a: string, b: string) {
    a == b || Less(a, b)
  }

  lemma {:induction false} LessIrreflexive(a: string)
    ensures !Less(a, a)
    decreases |a|
  {
    if |a| > 0 {
      LessIrreflexive(a[1..]);
    }
  }

  lemma {:induction false} LessTransitive(a: string, b: string, c: string)
    requires Less(a, b) && Less(b, c)
    ensures Less(a, c)
    decreases |a|
  {
    if |a| > 0 && a[0] == b[0] && b[0] == c[0] {
      LessTransitive(a[1..], b[1..], c[1..]);
    }
  }

  /** Any two strings are ordered one way or the other (trichotomy). */
  lemma {:induction false} LessTotal(a: string, b: string)
    ensures a == b || Less(a, b) || Less(b, a)
    decreases |a|
  {
    if |a| > 0 && |b| > 0 && a[0] == b[0] {
      LessTotal(a[1..], b[1..]);
      if a[1..] == b[1..] {
        assert a == [a[0]] + a[1..] && b == [b[0]] + b[1..];
      }
    }
  }

  lemma LessAsymmetric(a: string, b: string)
    ensures !(Less(a, b) && Less(b, a))
  {
    if Less(a, b) && Less(b, a) {
      LessTransitive(a, b, a);
      LessIrreflexive(a);
    }
  }

  lemma LessEqTransitive(a: string, b: string, c: string)
    requires LessEq(a, b) && LessEq(b, c)
    ensures LessEq(a, c)
  {
    if a != b && b != c {
      LessTransitive(a, b, c);
    }
  }

  /** Two equally long strings keep their order whatever follows them. */
  lemma {:induction false} LessExtend(a: string, b: string, x: string, y: string)
    requires |a| == |b| && Less(a, b)
    ensures Less(a + x, b + y)
    decreases |a|
  {
    assert (a + x)[0] == a[0] && (b + y)[0] == b[0];
    if a[0] == b[0] {
      assert (a + x)[1..] == a[1..] + x;
      assert (b + y)[1..] == b[1..] + y;
      LessExtend(a[1..], b[1..], x, y);
    }
  }

  /** A common prefix does not change the order. */
  lemma {:induction false} LessCommonPrefix(p: string, a: string, b: string)
    requires Less(a, b)
    ensures Less(p + a, p + b)
    decreases |p|
  {
    if |p| > 0 {
      assert (p + a)[1..] == p[1..] + a;
      assert (p + b)[1..] == p[1..] + b;
      LessCommonPrefix(p[1..], a, b);
    } else {
      assert p + a == a && p + b == b;
    }
  }

  // ---------------------------------------------------------------------------
  // Character classes

  /** Python's `str.isspace` restricted to ASCII: tab, line feed, vertical tab,
      form feed, carriage return, the four information separators and space. */
  predicate IsSpace(c: char) {
    9 <= c as int <= 13 || 28 <= c as int <= 32
  }

  predicate IsUpper(c: char) {
    'A' <= c <= 'Z'
  }

  /** ASCII `str.lower` on one character. */
  function LowerChar(c: char): (r: char)
    ensures !IsUpper(r)
    ensures IsSpace(r) <==> IsSpace(c)
    ensures !IsUpper(c) ==> r == c
    ensures IsUpper(c) ==> r as int == c as int + 32
  {
    if IsUpper(c) then (c as int + 32) as char else c
  }

  function Lower(s: string): (r: string)
    ensures |r| == |s|
    ensures forall i :: 0 <= i < |s| ==> r[i] == LowerChar(s[i])
  {
    seq(|s|, i requires 0 <= i < |s| => LowerChar(s[i]))
  }

  predicate NoUpper(s: string) {
    forall i :: 0 <= i < |s| ==> !IsUpper(s[i])
  }

  predicate NoSpace(s: string) {
    forall i :: 0 <= i < |s| ==> !IsSpace(s[i])
  }

  lemma LowerOfLowerCase(s: string)
    requires NoUpper(s)
    ensures Lower(s) == s
  {
  }

  // ---------------------------------------------------------------------------
  // Stripping and slicing

  /** Drops leading whitespace. */
  function TrimStart(s: string): (r: string)
    ensures |r| <= |s| && r == s[|s| - |r|..]
    ensures r == [] || !IsSpace(r[0])
    ensures forall i :: 0 <= i < |s| - |r| ==> IsSpace(s[i])
  {
    if |s| > 0 && IsSpace(s[0]) then TrimStart(s[1..]) else s
  }

  /** Drops trailing whitespace. */
  function TrimEnd(s: string): (r: string)
    ensures |r| <= |s| && r == s[..|r|]
    ensures r == [] || !IsSpace(r[|r| - 1])
    ensures forall i :: |r| <= i < |s| ==> IsSpace(s[i])
  {
    if |s| > 0 && IsSpace(s[|s| - 1]) then TrimEnd(s[..|s| - 1]) else s
  }

  /** Python's `s.strip()`. */
  function Strip(s: string): (r: string)
    ensures |r| <= |s|
  {
    TrimEnd(TrimStart(s))
  }

  /** What `strip` promises: the result is a piece of the input with no whitespace at
      either end, and it is empty exactly when the input is all whitespace. */
  lemma StripSpec(s: string)
    ensures var r := Strip(s);
      && (r == [] || (!IsSpace(r[0]) && !IsSpace(r[|r| - 1])))
      && (r == [] <==> forall i :: 0 <= i < |s| ==> IsSpace(s[i]))
      && exists k :: OccursAt(s, r, k)
  {
    var t := TrimStart(s);
    var r := TrimEnd(t);
    assert r == s[|s| - |t|..][..|r|] == s[|s| - |t|..|s| - |t| + |r|];
    assert OccursAt(s, r, |s| - |t|);
    assert r == [] ==> forall i :: 0 <= i < |s| ==> IsSpace(s[i]) by {
      if r == [] {
        assert t == [];
      }
    }
    assert (forall i :: 0 <= i < |s| ==> IsSpace(s[i])) ==> t == [] by {
      if t != [] {
        assert t[0] == s[|s| - |t|];
      }
    }
  }

  /** Python's `s[:n]`. */
  function Prefix(s: string, n: nat): (r: string)
    ensures |r| == if |s| < n then |s| else n
    ensures r == s[..|r|]
  {
    if |s| <= n then s else s[..n]
  }

  /** Python's `sub in s`. */
  predicate OccursAt(s: string, sub: string, i: int) {
    0 <= i && i + |sub| <= |s| && s[i..i + |sub|] == sub
  }

  predicate Contains(s: string, sub: string) {
    exists i | 0 <= i <= |s| - |sub| :: OccursAt(s, sub, i)
  }

  // ---------------------------------------------------------------------------
  // Splitting on whitespace and joining with a single space

  /** The longest prefix of `s` without whitespace. */
  function TakeWord(s: string): (r: string)
    ensures |r| <= |s| && r == s[..|r|]
    ensures NoSpace(r)
    ensures |r| == |s| || IsSpace(s[|r|])
  {
    if |s| == 0 || IsSpace(s[0]) then []
    else
      var rest := TakeWord(s[1..]);
      assert [s[0]] + rest == s[..|rest| + 1];
      [s[0]] + rest
  }

  /** A word in the sense of `str.split()`: non-empty and free of whitespace. */
  predicate IsWord(w: string) {
    |w| > 0 && NoSpace(w)
  }

  /** Python's `s.split()` with no separator: the maximal runs of non-whitespace. */
  function Words(s: string): (r: seq<string>)
    ensures forall k :: 0 <= k < |r| ==> IsWord(r[k])
    decreases |s|
  {
    var t := TrimStart(s);
    if t == [] then []
    else
      var w := TakeWord(t);
      FirstWord(t);
      var u := t[|w|..];
      assert |u| < |s|;
      var rest := Words(u);
      AllWordsCons(w, rest);
      [w] + rest
  }

  lemma AllWordsCons(w: string, ws: seq<string>)
    requires IsWord(w) && forall k :: 0 <= k < |ws| ==> IsWord(ws[k])
    ensures forall k :: 0 <= k < |[w] + ws| ==> IsWord(([w] + ws)[k])
  {
  }

  /** Text that starts with a non-space starts with a word. */
  lemma FirstWord(t: string)
    requires t != [] && !IsSpace(t[0])
    ensures IsWord(TakeWord(t))
  {
  }

  /** Python's `" ".join(ws)`. */
  function Join(ws: seq<string>): string {
    if |ws| == 0 then []
    else if |ws| == 1 then ws[0]
    else ws[0] + " " + Join(ws[1..])
  }

  /** Joining lower-case words gives lower-case text. */
  lemma {:induction false} JoinNoUpper(ws: seq<string>)
    requires forall k :: 0 <= k < |ws| ==> NoUpper(ws[k])
    ensures NoUpper(Join(ws))
    decreases |ws|
  {
    if |ws| > 1 {
      assert NoUpper(ws[0]);
      assert forall k :: 0 <= k < |ws[1..]| ==> NoUpper(ws[1..][k]) by {
        forall k | 0 <= k < |ws[1..]| ensures NoUpper(ws[1..][k]) {
          assert ws[1..][k] == ws[k + 1];
        }
      }
      JoinNoUpper(ws[1..]);
      NoUpperAppend(ws[0] + " ", Join(ws[1..]));
    } else if |ws| == 1 {
      assert NoUpper(ws[0]);
    }
  }

  lemma NoUpperAppend(a: string, b: string)
    requires NoUpper(a) && NoUpper(b)
    ensures NoUpper(a + b)
  {
    forall i | 0 <= i < |a + b| ensures !IsUpper((a + b)[i]) {
      if i >= |a| {
        assert (a + b)[i] == b[i - |a|];
      }
    }
  }

  /** Text in which whitespace only ever appears as one space between two words. */
  predicate SingleSpaced(s: string) {
    (|s| > 0 ==> !IsSpace(s[0]) && !IsSpace(s[|s| - 1])) &&
    forall i :: 0 <= i < |s| && IsSpace(s[i]) ==>
      s[i] == ' ' && 0 < i < |s| - 1 && !IsSpace(s[i + 1])
  }

  lemma {:induction false} JoinSingleSpaced(ws: seq<string>)
    requires forall k :: 0 <= k < |ws| ==> IsWord(ws[k])
    ensures SingleSpaced(Join(ws))
    decreases |ws|
  {
    if |ws| > 1 {
      var rest := Join(ws[1..]);
      JoinSingleSpaced(ws[1..]);
      var w := ws[0];
      var s := w + " " + rest;
      assert s == Join(ws);
      assert |rest| > 0 by {
        assert IsWord(ws[1..][0]);
        JoinNonEmpty(ws[1..]);
      }
      assert forall i :: 0 <= i < |w| ==> s[i] == w[i];
      forall i | 0 <= i < |s| && IsSpace(s[i])
        ensures s[i] == ' ' && 0 < i < |s| - 1 && !IsSpace(s[i + 1])
      {
        if i > |w| {
          assert s[i] == rest[i - |w| - 1];
          if i + 1 < |s| {
            assert s[i + 1] == rest[i - |w|];
          }
        } else if i == |w| {
          assert s[i + 1] == rest[0];
        }
      }
      assert s[|s| - 1] == rest[|rest| - 1];
    }
  }

  lemma JoinNonEmpty(ws: seq<string>)
    requires |ws| > 0 && IsWord(ws[0])
    ensures |Join(ws)| > 0
  {
  }

  /** The words of lower-case text are lower-case. */
  lemma {:induction false} WordsNoUpper(s: string)
    requires NoUpper(s)
    ensures forall k :: 0 <= k < |Words(s)| ==> NoUpper(Words(s)[k])
    decreases |s|
  {
    var t := TrimStart(s);
    NoUpperSlice(s, |s| - |t|);
    if t != [] {
      var w := TakeWord(t);
      FirstWord(t);
      NoUpperTake(t, |w|);
      NoUpperSlice(t, |w|);
      var u := t[|w|..];
      WordsNoUpper(u);
      WordsStep(s);
      NoUpperCons(w, Words(u));
    }
  }

  /** One step of `Words`: the first word, then the words of what follows it. */
  lemma WordsStep(s: string)
    requires TrimStart(s) != []
    ensures var t := TrimStart(s);
      Words(s) == [TakeWord(t)] + Words(t[|TakeWord(t)|..])
  {
  }

  lemma NoUpperSlice(s: string, i: int)
    requires NoUpper(s) && 0 <= i <= |s|
    ensures NoUpper(s[i..])
  {
    forall k | 0 <= k < |s| - i ensures !IsUpper(s[i..][k]) {
      assert s[i..][k] == s[i + k];
    }
  }

  lemma NoUpperTake(s: string, i: int)
    requires NoUpper(s) && 0 <= i <= |s|
    ensures NoUpper(s[..i])
  {
    forall k | 0 <= k < i ensures !IsUpper(s[..i][k]) {
      assert s[..i][k] == s[k];
    }
  }

  lemma NoUpperCons(w: string, ws: seq<string>)
    requires NoUpper(w) && forall k :: 0 <= k < |ws| ==> NoUpper(ws[k])
    ensures forall k :: 0 <= k < |[w] + ws| ==> NoUpper(([w] + ws)[k])
  {
  }

  /** A single space before any text is skipped by `split`. */
  lemma LeadingSpaceSkipped(s: string)
    ensures Words(" " + s) == Words(s)
  {
    assert TrimStart(" " + s) == TrimStart(s) by {
      assert (" " + s)[1..] == s;
    }
  }

  /** Splitting what was joined gives back the words: `" ".join(ws).split() == ws`. */
  lemma {:induction false} WordsOfJoin(ws: seq<string>)
    requires forall k :: 0 <= k < |ws| ==> IsWord(ws[k])
    ensures Words(Join(ws)) == ws
    decreases |ws|
  {
    if |ws| == 1 {
      assert IsWord(ws[0]);
      WordsOfJoinSingle(ws);
    } else if |ws| > 1 {
      AllWordsTail(ws);
      WordsOfJoin(ws[1..]);
      WordsOfJoinStep(ws);
    }
  }

  lemma WordsOfJoinSingle(ws: seq<string>)
    requires |ws| == 1 && IsWord(ws[0])
    ensures Words(Join(ws)) == ws
  {
    var w := ws[0];
    assert Join(ws) == w;
    assert Words(w) == [w] by {
      WordThenTail(w, []);
      assert w + [] == w;
    }
    assert ws == [w];
  }

  lemma AllWordsTail(ws: seq<string>)
    requires |ws| > 0 && forall k :: 0 <= k < |ws| ==> IsWord(ws[k])
    ensures IsWord(ws[0]) && forall k :: 0 <= k < |ws[1..]| ==> IsWord(ws[1..][k])
  {
    forall k | 0 <= k < |ws[1..]| ensures IsWord(ws[1..][k]) {
      assert ws[1..][k] == ws[k + 1];
    }
  }

  lemma WordsOfJoinStep(ws: seq<string>)
    requires |ws| > 1 && IsWord(ws[0])
    requires Words(Join(ws[1..])) == ws[1..]
    ensures Words(Join(ws)) == ws
  {
    var tail := " " + Join(ws[1..]);
    assert Join(ws) == ws[0] + tail;
    WordThenTail(ws[0], tail);
    LeadingSpaceSkipped(Join(ws[1..]));
    HeadTail(ws);
  }

  lemma HeadTail<T>(s: seq<T>)
    requires |s| > 0
    ensures s == [s[0]] + s[1..]
  {
  }

  /** A word followed by nothing or by whitespace splits into that word, then the
      words of the rest. */
  lemma WordThenTail(w: string, tail: string)
    requires IsWord(w)
    requires tail == [] || IsSpace(tail[0])
    ensures Words(w + tail) == [w] + Words(tail)
  {
    var s := w + tail;
    assert s[0] == w[0];
    assert TrimStart(s) == s;
    TakeWordOf(w, tail);
    assert s[|w|..] == tail;
    WordsStep(s);
  }

  lemma {:induction false} TakeWordOf(w: string, tail: string)
    requires NoSpace(w)
    requires tail == [] || IsSpace(tail[0])
    ensures TakeWord(w + tail) == w
    decreases |w|
  {
    if |w| > 0 {
      assert (w + tail)[1..] == w[1..] + tail;
      TakeWordOf(w[1..], tail);
      assert w == [w[0]] + w[1..];
    } else {
      assert w + tail == tail;
    }
  }
}
