/**
  The parts of Go's `strings` and `unicode` packages that the libvirt input
  uses. A Go string is modelled as its sequence of runes (Unicode scalar
  values), so a Dafny `string` stands for a valid UTF-8 Go string.
*/
module GoStrings {

  /** unicode.IsSpace: the Unicode White_Space property. */
  predicate IsSpace(c: char) {
    ('\t' <= c <= '\r') || c == ' ' || c == '\U{0085}' || c == '\U{00A0}'
    || c == '\U{1680}' || ('\U{2000}' <= c <= '\U{200A}')
    || c == '\U{2028}' || c == '\U{2029}' || c == '\U{202F}' || c == '\U{205F}'
    || c == '\U{3000}'
  }

  predicate AllSpace(s: string) {
    forall i :: 0 <= i < |s| ==> IsSpace(s[i])
  }

  predicate NoSpace(s: string) {
    forall i :: 0 <= i < |s| ==> !IsSpace(s[i])
  }

  /** strings.Join with a one-character separator. */
  function Join(parts: seq<string>, sep: char): string
  {
    if |parts| == 0 then []
    else if |parts| == 1 then parts[0]
    else parts[0] + [sep] + Join(parts[1..], sep)
  }

  /**
    strings.Split with a one-character separator: the pieces between the
    separators, never fewer than one, which Join puts back together.
  */
  function Split(s: string, sep: char): (r: seq<string>)
    ensures |r| >= 1
    ensures forall i :: 0 <= i < |r| ==> sep !in r[i]
    ensures |r| > 1 <==> sep in s
    ensures Join(r, sep) == s
  {
    if s == [] then [[]]
    else
      var rest := Split(s[1..], sep);
      if s[0] == sep then
        assert ([[]] + rest)[1..] == rest;
        [[]] + rest
      else
        var r := [[s[0]] + rest[0]] + rest[1..];
        assert r[1..] == rest[1..];
        assert |rest| > 1 ==> Join(rest, sep) == rest[0] + [sep] + Join(rest[1..], sep);
        r
  }

  /**
    strings.Index with a one-character separator: the position of the first
    occurrence of c in s, or -1.
  */
  function Index(s: string, c: char): (i: int)
    ensures -1 <= i < |s|
    ensures i == -1 <==> c !in s
    ensures i >= 0 ==> s[i] == c && c !in s[..i]
  {
    if s == [] then -1
    else if s[0] == c then 0
    else
      var j := Index(s[1..], c);
      assert s[1..][..if j < 0 then 0 else j] == s[1..1 + if j < 0 then 0 else j];
      if j < 0 then -1 else 1 + j
  }

  /**
    strings.SplitN(s, sep, 2) with a one-character separator: the whole string
    when sep does not occur, otherwise the text before the first sep and the
    text after it.
  */
  function SplitN2(s: string, sep: char): (r: seq<string>)
    ensures sep !in s ==> r == [s]
    ensures sep in s ==> |r| == 2 && sep !in r[0] && |r[0]| < |s| && r[0] == s[..|r[0]|]
                         && s[|r[0]|] == sep && r[1] == s[|r[0]| + 1..]
  {
    var i := Index(s, sep);
    if i < 0 then [s] else [s[..i], s[i + 1..]]
  }

  /** Splitting at the first separator of a + [sep] + b, where a has none, gives a and b. */
  lemma SplitAtFirst(a: string, sep: char, b: string)
    requires sep !in a
    ensures SplitN2(a + [sep] + b, sep) == [a, b]
  {
    var s := a + [sep] + b;
    var r := SplitN2(s, sep);
    assert s[|a|] == sep;
    assert forall j :: 0 <= j < |a| ==> s[j] == a[j];
    assert r[0] == a;
    assert s[|a| + 1..] == b;
  }

  /** strings.HasSuffix. */
  predicate HasSuffix(s: string, suffix: string) {
    |suffix| <= |s| && s[|s| - |suffix|..] == suffix
  }

  /** Any text followed by suffix ends with suffix. */
  lemma HasSuffixAppend(t: string, suffix: string)
    ensures HasSuffix(t + suffix, suffix)
  {
    assert (t + suffix)[|t|..] == suffix;
  }

  /** A text that ends with suffix is some text followed by suffix. */
  lemma HasSuffixSplit(s: string, suffix: string) returns (t: string)
    requires HasSuffix(s, suffix)
    ensures s == t + suffix
  {
    t := s[..|s| - |suffix|];
    assert s == s[..|s| - |suffix|] + s[|s| - |suffix|..];
  }

  /**
    strings.Fields: the maximal runs of non-space characters of s, in order.
  */
  function Fields(s: string): (r: seq<string>)
    ensures forall i :: 0 <= i < |r| ==> |r[i]| > 0 && NoSpace(r[i])
    ensures |s| > 0 && !IsSpace(s[0]) ==> |r| > 0 && r[0][0] == s[0]
  {
    if s == [] then []
    else if IsSpace(s[0]) then Fields(s[1..])
    else
      var rest := Fields(s[1..]);
      if |s| > 1 && !IsSpace(s[1]) then [[s[0]] + rest[0]] + rest[1..]
      else [[s[0]]] + rest
  }

  /** The number of space characters that start s. */
  function LeadingSpace(s: string): (n: nat)
    ensures n <= |s| && AllSpace(s[..n])
    ensures n < |s| ==> !IsSpace(s[n])
  {
    if s == [] || !IsSpace(s[0]) then 0
    else
      var n := 1 + LeadingSpace(s[1..]);
      assert s[..n] == [s[0]] + s[1..][..n - 1];
      n
  }

  /** The number of space characters that end s. */
  function TrailingSpace(s: string): (n: nat)
    ensures n <= |s| && AllSpace(s[|s| - n..])
    ensures n < |s| ==> !IsSpace(s[|s| - n - 1])
  {
    if s == [] || !IsSpace(s[|s| - 1]) then 0
    else
      var t := s[..|s| - 1];
      var n := 1 + TrailingSpace(t);
      assert s[|s| - n..] == t[|t| - (n - 1)..] + [s[|s| - 1]];
      n
  }

  /**
    strings.TrimSpace: s without its leading and trailing space characters.
    The result neither starts nor ends with a space; TrimSpaceStrips says
    that only space was removed.
  */
  function TrimSpace(s: string): (r: string)
    ensures |r| <= |s|
    ensures |r| > 0 ==> !IsSpace(r[0]) && !IsSpace(r[|r| - 1])
  {
    var t := s[LeadingSpace(s)..];
    t[..|t| - TrailingSpace(t)]
  }

  /** s is some space (i characters of it), then TrimSpace(s), then some space. */
  lemma TrimSpaceStrips(s: string) returns (i: nat)
    ensures i + |TrimSpace(s)| <= |s| && TrimSpace(s) == s[i..i + |TrimSpace(s)|]
    ensures AllSpace(s[..i]) && AllSpace(s[i + |TrimSpace(s)|..])
  {
    hide IsSpace;
    i := LeadingSpace(s);
    var t := s[i..];
    var m := |t| - TrailingSpace(t);
    SliceOfSuffix(s, i, m);
  }

  lemma SliceOfSuffix(s: string, i: nat, m: nat)
    requires i + m <= |s|
    ensures s[i..][..m] == s[i..i + m] && s[i..][m..] == s[i + m..]
  {
  }

  // ---- Lemmas: Split and Join are inverse ----

  lemma {:induction false} SplitNoSeparator(a: string, sep: char)
    requires sep !in a
    ensures Split(a, sep) == [a]
  {
    if a != [] {
      SplitNoSeparator(a[1..], sep);
    }
  }

  lemma {:induction false} SplitAtSeparator(a: string, sep: char, b: string)
    requires sep !in a
    ensures Split(a + [sep] + b, sep) == [a] + Split(b, sep)
  {
    var s := a + [sep] + b;
    if a == [] {
      assert s[1..] == b;
    } else {
      assert s[0] == a[0] != sep;
      assert s[1..] == a[1..] + [sep] + b;
      SplitAtSeparator(a[1..], sep, b);
      assert [a[0]] + a[1..] == a;
    }
  }

  /** Splitting what Join produced gives back the parts. */
  lemma {:induction false} SplitJoin(parts: seq<string>, sep: char)
    requires |parts| >= 1
    requires forall i :: 0 <= i < |parts| ==> sep !in parts[i]
    ensures Split(Join(parts, sep), sep) == parts
  {
    if |parts| == 1 {
      SplitNoSeparator(parts[0], sep);
    } else {
      SplitJoin(parts[1..], sep);
      SplitAtSeparator(parts[0], sep, Join(parts[1..], sep));
    }
  }

  // ---- Lemmas: Fields splits around runs of space ----

  lemma {:induction false} FieldsOfSpaces(w: string)
    requires AllSpace(w)
    ensures Fields(w) == []
  {
    if w != [] {
      FieldsOfSpaces(w[1..]);
    }
  }

  lemma {:induction false} FieldsOfWord(w: string)
    requires |w| > 0 && NoSpace(w)
    ensures Fields(w) == [w]
  {
    if |w| > 1 {
      assert !IsSpace(w[1]);
      FieldsOfWord(w[1..]);
      assert [w[0]] + w[1..] == w;
    } else {
      assert [w[0]] == w;
    }
  }

  /** Fields of a string with first character c, in terms of the fields of the rest. */
  lemma FieldsCons(c: char, t: string)
    ensures Fields([c] + t) ==
            if IsSpace(c) then Fields(t)
            else if |t| > 0 && !IsSpace(t[0]) then [[c] + Fields(t)[0]] + Fields(t)[1..]
            else [[c]] + Fields(t)
  {
    assert ([c] + t)[0] == c && ([c] + t)[1..] == t;
  }

  /** A non-empty run of space separates the fields before it from those after it. */
  lemma {:induction false} FieldsAcrossSpace(a: string, w: string, b: string)
    requires |w| > 0 && AllSpace(w)
    ensures Fields(a + w + b) == Fields(a) + Fields(b)
  {
    if a == [] {
      assert a + w + b == w + b;
      FieldsSkipSpace(w, b);
    } else {
      FieldsAcrossSpace(a[1..], w, b);
      FieldsAcrossSpaceStep(a[0], a[1..], w, b);
      assert [a[0]] + a[1..] == a;
    }
  }

  /** The step of FieldsAcrossSpace: one more character in front. */
  lemma FieldsAcrossSpaceStep(c: char, a: string, w: string, b: string)
    requires |w| > 0 && AllSpace(w)
    requires Fields(a + w + b) == Fields(a) + Fields(b)
    ensures Fields([c] + a + w + b) == Fields([c] + a) + Fields(b)
  {
    var t := a + w + b;
    assert [c] + a + w + b == [c] + t;
    if IsSpace(c) {
      FieldsCons(c, t);
      FieldsCons(c, a);
    } else if |a| > 0 && !IsSpace(a[0]) {
      GlueFirst(c, a, t, Fields(b));
    } else {
      assert IsSpace(t[0]) by {
        if |a| > 0 { assert t[0] == a[0]; } else { assert t[0] == w[0]; }
      }
      NewWord(c, a, t, Fields(b));
    }
  }

  /** A word character in front of a word joins that word, in a and in t alike. */
  lemma GlueFirst(c: char, a: string, t: string, fb: seq<string>)
    requires !IsSpace(c) && |a| > 0 && !IsSpace(a[0]) && |t| > 0 && t[0] == a[0]
    requires Fields(t) == Fields(a) + fb
    ensures Fields([c] + t) == Fields([c] + a) + fb
  {
    hide Fields, IsSpace, NoSpace;
    FieldsCons(c, t);
    FieldsCons(c, a);
    GlueAppend([c], Fields(a), fb);
  }

  lemma GlueAppend(x: string, fa: seq<string>, fb: seq<string>)
    requires |fa| > 0
    ensures [x + (fa + fb)[0]] + (fa + fb)[1..] == ([x + fa[0]] + fa[1..]) + fb
  {
    assert (fa + fb)[0] == fa[0] && (fa + fb)[1..] == fa[1..] + fb;
  }

  /** A word character before space, or at the end, is a word of its own, in a and in t alike. */
  lemma NewWord(c: char, a: string, t: string, fb: seq<string>)
    requires !IsSpace(c) && (|a| == 0 || IsSpace(a[0])) && |t| > 0 && IsSpace(t[0])
    requires Fields(t) == Fields(a) + fb
    ensures Fields([c] + t) == Fields([c] + a) + fb
  {
    hide Fields, IsSpace, NoSpace;
    FieldsCons(c, t);
    FieldsCons(c, a);
    AppendAssoc([[c]], Fields(a), fb);
  }

  lemma AppendAssoc(x: seq<string>, y: seq<string>, z: seq<string>)
    ensures x + (y + z) == (x + y) + z
  {
  }

  lemma {:induction false} FieldsSkipSpace(w: string, b: string)
    requires AllSpace(w)
    ensures Fields(w + b) == Fields(b)
  {
    if w != [] {
      assert (w + b)[0] == w[0] && IsSpace(w[0]);
      assert (w + b)[1..] == w[1..] + b;
      assert Fields(w + b) == Fields(w[1..] + b);
      FieldsSkipSpace(w[1..], b);
    } else {
      assert w + b == b;
    }
  }

  /** Fields undoes joining non-empty space-free words with one space. */
  lemma {:induction false} FieldsJoin(words: seq<string>)
    requires |words| >= 1
    requires forall i :: 0 <= i < |words| ==> |words[i]| > 0 && NoSpace(words[i])
    ensures Fields(Join(words, ' ')) == words
  {
    FieldsOfWord(words[0]);
    if |words| > 1 {
      FieldsJoin(words[1..]);
      FieldsAcrossSpace(words[0], " ", Join(words[1..], ' '));
    }
  }

  // ---- Lemmas: TrimSpace removes exactly the surrounding space ----

  lemma {:induction false} LeadingSpaceAfter(a: string, rest: string)
    requires AllSpace(a)
    requires rest == [] || !IsSpace(rest[0])
    ensures LeadingSpace(a + rest) == |a|
  {
    if a != [] {
      assert (a + rest)[0] == a[0];
      assert (a + rest)[1..] == a[1..] + rest;
      LeadingSpaceAfter(a[1..], rest);
    }
  }

  lemma {:induction false} TrailingSpaceBefore(rest: string, b: string)
    requires AllSpace(b)
    requires rest == [] || !IsSpace(rest[|rest| - 1])
    ensures TrailingSpace(rest + b) == |b|
  {
    if b != [] {
      var s := rest + b;
      assert s[|s| - 1] == b[|b| - 1];
      assert s[..|s| - 1] == rest + b[..|b| - 1];
      TrailingSpaceBefore(rest, b[..|b| - 1]);
    }
  }

  /** TrimSpace of t padded with space on both sides is t, when t is not itself padded. */
  lemma TrimSpacePadded(a: string, t: string, b: string)
    requires AllSpace(a) && AllSpace(b)
    requires |t| > 0 ==> !IsSpace(t[0]) && !IsSpace(t[|t| - 1])
    ensures TrimSpace(a + t + b) == t
  {
    var s := a + t + b;
    if t == [] {
      assert s == (a + b) + [];
      LeadingSpaceAfter(a + b, []);
      assert s[|s|..] == [];
    } else {
      assert s == a + (t + b);
      LeadingSpaceAfter(a, t + b);
      assert s[|a|..] == t + b;
      TrailingSpaceBefore(t, b);
      assert (t + b)[..|t|] == t;
    }
  }

  lemma TrimSpaceIdempotent(s: string)
    ensures TrimSpace(TrimSpace(s)) == TrimSpace(s)
  {
    TrimSpacePadded([], TrimSpace(s), []);
    assert [] + TrimSpace(s) + [] == TrimSpace(s);
  }
}
