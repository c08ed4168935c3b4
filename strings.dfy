/** The two Go library string functions the authorization middleware relies
    on: `strings.Fields` (split around runs of white space, as defined by
    `unicode.IsSpace`) and `strings.ToLower`, restricted to ASCII letters. A
    string is a sequence of decoded runes. */
module Strings {

  /** `unicode.IsSpace`: the Latin-1 spaces '\t', '\n', '\v', '\f', '\r',
      ' ', U+0085 (NEL) and U+00A0 (NBSP), and every other rune with the
      Unicode White_Space property. */
  predicate IsSpace(c: char) {
    || c == '\t' || c == '\n' || c == '\U{0B}' || c == '\U{0C}' || c == '\r'
    || c == ' ' || c == '\U{85}' || c == '\U{A0}'
    || c == '\U{1680}' || ('\U{2000}' <= c <= '\U{200A}')
    || c == '\U{2028}' || c == '\U{2029}' || c == '\U{202F}' || c == '\U{205F}'
    || c == '\U{3000}'
  }

  predicate AllSpace(s: string) {
    forall i :: 0 <= i < |s| ==> IsSpace(s[i])
  }

  /** What `strings.Fields` can return as one field: a non-empty run of
      non-space runes. */
  predicate IsWord(w: string) {
    |w| > 0 && forall i :: 0 <= i < |w| ==> !IsSpace(w[i])
  }

  /** The length of the longest all-space prefix of `s`. */
  function LeadingSpaces(s: string): (n: nat)
    ensures n <= |s|
    ensures forall i :: 0 <= i < n ==> IsSpace(s[i])
    ensures n < |s| ==> !IsSpace(s[n])
  {
    if |s| > 0 && IsSpace(s[0]) then 1 + LeadingSpaces(s[1..]) else 0
  }

  /** The length of the longest space-free prefix of `s`. */
  function WordLength(s: string): (n: nat)
    ensures n <= |s|
    ensures forall i :: 0 <= i < n ==> !IsSpace(s[i])
    ensures n < |s| ==> IsSpace(s[n])
  {
    if |s| > 0 && !IsSpace(s[0]) then 1 + WordLength(s[1..]) else 0
  }

  /** `strings.Fields(s)`: the maximal runs of non-space runes of `s`, in
      order. */
  function Fields(s: string): (r: seq<string>)
    ensures forall k :: 0 <= k < |r| ==> IsWord(r[k])
    decreases |s|
  {
    var t := s[LeadingSpaces(s)..];
    if t == [] then []
    else
      var n := WordLength(t);
      [t[..n]] + Fields(t[n..])
  }

  /** The words of `ws`, each followed by its gap of white space. */
  function Spread(ws: seq<string>, gaps: seq<string>): string
    requires |gaps| == |ws|
  {
    if ws == [] then "" else ws[0] + gaps[0] + Spread(ws[1..], gaps[1..])
  }

  /** The gaps of a layout: all white space, and every gap but the last one
      non-empty (the last one is the trailing white space). */
  predicate GoodGaps(ws: seq<string>, gaps: seq<string>) {
    && |gaps| == |ws|
    && (forall k :: 0 <= k < |gaps| ==> AllSpace(gaps[k]))
    && (forall k :: 0 <= k < |gaps| - 1 ==> gaps[k] != [])
  }

  /** A string splits into no fields exactly when it is white space only
      (the empty string included). */
  lemma FieldsEmptyIffAllSpace(s: string)
    ensures Fields(s) == [] <==> AllSpace(s)
  {
    var n := LeadingSpaces(s);
    if AllSpace(s) {
      assert n == |s|;
    } else {
      var i :| 0 <= i < |s| && !IsSpace(s[i]);
      assert n <= i;
      assert s[n..] != [];
    }
  }

  lemma {:induction false} LeadingSpacesBeforeWord(sp: string, rest: string)
    requires AllSpace(sp)
    requires rest != [] && !IsSpace(rest[0])
    ensures LeadingSpaces(sp + rest) == |sp|
    decreases |sp|
  {
    if sp != [] {
      assert (sp + rest)[1..] == sp[1..] + rest;
      LeadingSpacesBeforeWord(sp[1..], rest);
    }
  }

  lemma {:induction false} WordLengthBeforeSpace(w: string, rest: string)
    requires forall i :: 0 <= i < |w| ==> !IsSpace(w[i])
    requires rest == [] || IsSpace(rest[0])
    ensures WordLength(w + rest) == |w|
    decreases |w|
  {
    if w != [] {
      assert (w + rest)[1..] == w[1..] + rest;
      WordLengthBeforeSpace(w[1..], rest);
    }
  }

  /** Leading white space is skipped, and a word that ends at white space or
      at the end of the string is one field. */
  lemma FieldsCons(sp: string, w: string, rest: string)
    requires AllSpace(sp) && IsWord(w)
    requires rest == [] || IsSpace(rest[0])
    ensures Fields(sp + w + rest) == [w] + Fields(rest)
  {
    var s := sp + w + rest;
    assert s == sp + (w + rest);
    LeadingSpacesBeforeWord(sp, w + rest);
    assert s[|sp|..] == w + rest;
    WordLengthBeforeSpace(w, rest);
    assert (w + rest)[..|w|] == w;
    assert (w + rest)[|w|..] == rest;
  }

  /** Splitting any layout of blank-free words, with white space of any
      kind and length before, between and after them, gives the words back. */
  lemma {:induction false} FieldsOfSpread(pre: string, ws: seq<string>, gaps: seq<string>)
    requires AllSpace(pre) && GoodGaps(ws, gaps)
    requires forall k :: 0 <= k < |ws| ==> IsWord(ws[k])
    ensures Fields(pre + Spread(ws, gaps)) == ws
    decreases |ws|
  {
    if ws == [] {
      assert pre + Spread(ws, gaps) == pre;
      FieldsEmptyIffAllSpace(pre);
    } else {
      var tail := Spread(ws[1..], gaps[1..]);
      var rest := gaps[0] + tail;
      Regroup(pre + Spread(ws, gaps), pre, ws[0], rest, gaps[0], tail);
      assert rest == [] || IsSpace(rest[0]) by {
        if gaps[0] == [] {
          assert |ws| == 1;
        } else {
          assert rest[0] == gaps[0][0];
        }
      }
      FieldsCons(pre, ws[0], rest);
      GoodGapsTail(ws, gaps);
      FieldsOfSpread(gaps[0], ws[1..], gaps[1..]);
      assert [ws[0]] + ws[1..] == ws;
    }
  }

  lemma GoodGapsTail(ws: seq<string>, gaps: seq<string>)
    requires GoodGaps(ws, gaps) && ws != []
    ensures GoodGaps(ws[1..], gaps[1..])
  {
    forall k | 0 <= k < |gaps| - 2
      ensures gaps[1..][k] != []
    {
      assert gaps[1..][k] == gaps[k + 1];
    }
  }

  /** The white space after each field of `s`, as `strings.Fields` skips
      it. */
  function Gaps(s: string): seq<string>
    decreases |s|
  {
    var t := s[LeadingSpaces(s)..];
    if t == [] then []
    else
      var r := t[WordLength(t)..];
      [r[..LeadingSpaces(r)]] + Gaps(r)
  }

  /** One step of `Fields` and `Gaps`: the first field is the word after the
      leading white space, and both continue on what follows that word. */
  lemma FieldsStep(s: string)
    requires s[LeadingSpaces(s)..] != []
    ensures var t := s[LeadingSpaces(s)..];
      var r := t[WordLength(t)..];
      && Fields(s) == [t[..WordLength(t)]] + Fields(r)
      && Gaps(s) == [r[..LeadingSpaces(r)]] + Gaps(r)
      && (r != [] ==> IsSpace(r[0]))
  {
  }

  /** The gaps `strings.Fields` skips fit its fields. */
  lemma {:induction false} GapsFit(s: string)
    ensures GoodGaps(Fields(s), Gaps(s))
    decreases |s|
  {
    var t := s[LeadingSpaces(s)..];
    if t != [] {
      var r := t[WordLength(t)..];
      FieldsStep(s);
      GapsFit(r);
      var gap := r[..LeadingSpaces(r)];
      assert Gaps(r) != [] ==> gap != [] by {
        if Gaps(r) != [] {
          assert r != [];
        }
      }
      GoodGapsCons(t[..WordLength(t)], Fields(r), gap, Gaps(r));
    }
  }

  /** A word with its gap in front of a good layout is a good layout, when
      the gap is white space and is non-empty unless it is the last one. */
  lemma GoodGapsCons(w: string, ws: seq<string>, g: string, gaps: seq<string>)
    requires GoodGaps(ws, gaps) && AllSpace(g)
    requires gaps != [] ==> g != []
    ensures GoodGaps([w] + ws, [g] + gaps)
  {
    var all := [g] + gaps;
    forall k | 0 <= k < |all|
      ensures AllSpace(all[k])
    {
      if k > 0 { assert all[k] == gaps[k - 1]; }
    }
    forall k | 0 <= k < |all| - 1
      ensures all[k] != []
    {
      if k > 0 { assert all[k] == gaps[k - 1]; }
    }
  }

  /** Conversely, every string is its leading white space followed by its
      fields, each with the gap `strings.Fields` skipped after it: the
      fields are exactly the maximal non-space runs, in order. */
  lemma {:induction false} SpreadOfFields(s: string)
    ensures GoodGaps(Fields(s), Gaps(s))
    ensures s == s[..LeadingSpaces(s)] + Spread(Fields(s), Gaps(s))
    decreases |s|
  {
    GapsFit(s);
    var l := LeadingSpaces(s);
    var t := s[l..];
    if t == [] {
      assert s == s[..l];
    } else {
      var n := WordLength(t);
      var r := t[n..];
      FieldsStep(s);
      SpreadOfFields(r);
      var gap, tail := r[..LeadingSpaces(r)], Spread(Fields(r), Gaps(r));
      GapsFit(r);
      SpreadCons(t[..n], Fields(r), gap, Gaps(r));
      SplitTwice(s, l, n);
      Regroup(s, s[..l], t[..n], r, gap, tail);
    }
  }

  lemma SpreadCons(w: string, ws: seq<string>, g: string, gaps: seq<string>)
    requires |gaps| == |ws|
    ensures Spread([w] + ws, [g] + gaps) == w + g + Spread(ws, gaps)
  {
    assert ([w] + ws)[1..] == ws && ([g] + gaps)[1..] == gaps;
  }

  lemma SplitTwice(s: string, l: nat, n: nat)
    requires l <= |s| && n <= |s| - l
    ensures s == s[..l] + s[l..][..n] + s[l..][n..]
  {
    var t := s[l..];
    assert t == t[..n] + t[n..];
    assert s == s[..l] + t;
  }

  lemma Regroup(s: string, a: string, b: string, r: string, c: string, d: string)
    requires s == a + b + r && r == c + d
    ensures s == a + (b + c + d)
  {
  }

  /** `unicode.ToLower` on ASCII letters; every other rune is kept. */
  function LowerAscii(c: char): char {
    if 'A' <= c <= 'Z' then (c as int + 32) as char else c
  }

  /** `strings.ToLower`, rune by rune. */
  function ToLower(s: string): (r: string)
    ensures |r| == |s|
    ensures forall i :: 0 <= i < |s| ==> r[i] == LowerAscii(s[i])
  {
    if s == [] then [] else [LowerAscii(s[0])] + ToLower(s[1..])
  }

  lemma LowerAsciiOnto(c: char, lower: char, upper: char)
    requires 'a' <= lower <= 'z' && upper as int == lower as int - 32
    ensures LowerAscii(c) == lower <==> c == lower || c == upper
  {
  }

  /** "bearer" with each of its letters in either case. */
  predicate BearerSpelling(s: string) {
    |s| == 6 && forall i :: 0 <= i < 6 ==> s[i] == "bearer"[i] || s[i] == "BEARER"[i]
  }

  /** A scheme lower-cases to "bearer" exactly when it is "bearer" with any
      of its letters in either case. */
  lemma BearerSchemeIff(s: string)
    ensures ToLower(s) == "bearer" <==> BearerSpelling(s)
  {
    var lower, upper := "bearer", "BEARER";
    if |s| == 6 {
      forall i | 0 <= i < 6
        ensures LowerAscii(s[i]) == lower[i] <==> s[i] == lower[i] || s[i] == upper[i]
      {
        LowerAsciiOnto(s[i], lower[i], upper[i]);
      }
      assert ToLower(s) == lower <==> forall i :: 0 <= i < 6 ==> ToLower(s)[i] == lower[i];
    }
  }
}
