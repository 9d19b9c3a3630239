/** The few Python string built-ins the transcript parser relies on:
    `str.strip()`, the substring test `w in s`, and `str.split(sep)` /
    `str.split(sep, 1)` for a one-character separator. The functions are
    plain recursive definitions; what they guarantee is stated in the
    lemmas beside them. */
module Text {

  /** Python's `str.isspace()` for one character: the characters `strip()`
      with no argument removes (tab to carriage return, the four ASCII
      separators, space, NEL, no-break space and the Unicode space
      separators, line and paragraph separators). */
  predicate IsSpace(c: char)
  {
    || ('\t' <= c <= '\r')
    || ('\U{1C}' <= c <= '\U{1F}')
    || c == ' '
    || c == '\U{85}'
    || c == '\U{A0}'
    || c == '\U{1680}'
    || ('\U{2000}' <= c <= '\U{200A}')
    || c == '\U{2028}'
    || c == '\U{2029}'
    || c == '\U{202F}'
    || c == '\U{205F}'
    || c == '\U{3000}'
  }

  predicate AllSpace(s: string)
  {
    forall k :: 0 <= k < |s| ==> IsSpace(s[k])
  }

  /** `s.lstrip()`. */
  function TrimLeft(s: string): string
  {
    if s != [] && IsSpace(s[0]) then TrimLeft(s[1..]) else s
  }

  /** `s.rstrip()`. */
  function TrimRight(s: string): string
  {
    if s != [] && IsSpace(s[|s| - 1]) then TrimRight(s[..|s| - 1]) else s
  }

  /** `s.strip()`. */
  function Strip(s: string): string
  {
    TrimRight(TrimLeft(s))
  }

  /** `lstrip` drops a blank prefix and stops at the first non-space. */
  lemma {:induction false} TrimLeftShape(s: string)
    ensures |TrimLeft(s)| <= |s|
    ensures TrimLeft(s) == s[|s| - |TrimLeft(s)|..]
    ensures AllSpace(s[..|s| - |TrimLeft(s)|])
    ensures TrimLeft(s) == [] || !IsSpace(TrimLeft(s)[0])
  {
    if s != [] && IsSpace(s[0]) {
      TrimLeftShape(s[1..]);
      var n := |s| - |TrimLeft(s)|;
      assert s[1..][n - 1..] == s[n..];
      forall k | 0 <= k < n ensures IsSpace(s[k]) {
        if k > 0 { assert s[1..][..n - 1][k - 1] == s[k]; }
      }
    }
  }

  /** `rstrip` drops a blank suffix and stops at the last non-space. */
  lemma {:induction false} TrimRightShape(s: string)
    ensures |TrimRight(s)| <= |s|
    ensures TrimRight(s) == s[..|TrimRight(s)|]
    ensures AllSpace(s[|TrimRight(s)|..])
    ensures TrimRight(s) == [] || !IsSpace(TrimRight(s)[|TrimRight(s)| - 1])
  {
    if s != [] && IsSpace(s[|s| - 1]) {
      var t := s[..|s| - 1];
      TrimRightShape(t);
      var m := |TrimRight(s)|;
      assert t[..m] == s[..m];
      forall k | m <= k < |s| ensures IsSpace(s[k]) {
        if k < |s| - 1 { assert t[m..][k - m] == s[k]; }
      }
    }
  }

  /** `s.strip()` removes a whitespace prefix and a whitespace suffix and
      nothing else: `s` is `lead + s.strip() + trail` with both runs blank,
      and the result neither starts nor ends with whitespace. */
  lemma StripShape(s: string)
    ensures exists i, j :: 0 <= i <= j <= |s| && Strip(s) == s[i..j]
                           && AllSpace(s[..i]) && AllSpace(s[j..])
    ensures Strip(s) == [] || (!IsSpace(Strip(s)[0]) && !IsSpace(Strip(s)[|Strip(s)| - 1]))
  {
    var t := TrimLeft(s);
    TrimLeftShape(s);
    TrimRightShape(t);
    var i := |s| - |t|;
    var j := i + |Strip(s)|;
    assert Strip(s) == s[i..j];
    assert AllSpace(s[j..]) by {
      forall k | j <= k < |s| ensures IsSpace(s[k]) {
        assert t[|Strip(s)|..][k - j] == s[k];
      }
    }
    if Strip(s) != [] {
      assert Strip(s)[0] == t[0];
    }
  }

  /** Stripping twice is stripping once. */
  lemma StripIdempotent(s: string)
    ensures Strip(Strip(s)) == Strip(s)
  {
    StripShape(s);
    var r := Strip(s);
    assert TrimLeft(r) == r;
    assert TrimRight(r) == r;
  }

  /** A string strips to nothing exactly when it is all whitespace (the
      `if not case_text.strip()` guard and the blank-line test). */
  lemma StripEmptyIff(s: string)
    ensures Strip(s) == [] <==> AllSpace(s)
  {
    StripShape(s);
    var i, j :| 0 <= i <= j <= |s| && Strip(s) == s[i..j] && AllSpace(s[..i]) && AllSpace(s[j..]);
    if Strip(s) == [] {
      forall k | 0 <= k < |s| ensures IsSpace(s[k]) {
        if k < i { assert s[..i][k] == s[k]; } else { assert s[j..][k - j] == s[k]; }
      }
    } else {
      assert !IsSpace(s[i]) by { assert Strip(s)[0] == s[i]; }
    }
  }

  /** Stripping only removes characters: whatever is in `s.strip()` is in `s`. */
  lemma StripChars(s: string, c: char)
    ensures c in Strip(s) ==> c in s
  {
    StripShape(s);
    var i, j :| 0 <= i <= j <= |s| && Strip(s) == s[i..j] && AllSpace(s[..i]) && AllSpace(s[j..]);
    if c in Strip(s) {
      var k :| 0 <= k < |Strip(s)| && Strip(s)[k] == c;
      assert s[i + k] == c;
    }
  }

  predicate StartsWith(s: string, w: string)
  {
    |w| <= |s| && s[..|w|] == w
  }

  /** Python's `w in s` for two strings (the empty string is in every
      string). */
  predicate Contains(s: string, w: string)
  {
    StartsWith(s, w) || (s != [] && Contains(s[1..], w))
  }

  /** `s[at..]` starts with `w`. */
  predicate OccursAt(s: string, w: string, at: nat)
  {
    at + |w| <= |s| && s[at..at + |w|] == w
  }

  /** `w in s` holds exactly when `w` occurs at some index of `s`. */
  lemma ContainsIff(s: string, w: string)
    ensures Contains(s, w) <==> exists at: nat :: OccursAt(s, w, at)
  {
    if Contains(s, w) {
      ContainsWitness(s, w);
    }
    if exists at: nat :: OccursAt(s, w, at) {
      var at: nat :| OccursAt(s, w, at);
      OccursContains(s, w, at);
    }
  }

  lemma {:induction false} ContainsWitness(s: string, w: string)
    requires Contains(s, w)
    ensures exists at: nat :: OccursAt(s, w, at)
  {
    if StartsWith(s, w) {
      assert OccursAt(s, w, 0);
    } else {
      ContainsWitness(s[1..], w);
      var at: nat :| OccursAt(s[1..], w, at);
      assert s[1..][at..at + |w|] == s[at + 1..at + 1 + |w|];
      assert OccursAt(s, w, at + 1);
    }
  }

  lemma {:induction false} OccursContains(s: string, w: string, at: nat)
    requires OccursAt(s, w, at)
    ensures Contains(s, w)
  {
    if at == 0 {
      assert StartsWith(s, w);
    } else {
      assert s[1..][at - 1..at - 1 + |w|] == s[at..at + |w|];
      OccursContains(s[1..], w, at - 1);
    }
  }

  /** A word with a character that `s` lacks is not in `s`. */
  lemma {:induction false} MissingCharNotContained(s: string, w: string, c: char)
    requires c in w && c !in s
    ensures !Contains(s, w)
  {
    if |w| <= |s| {
      assert c !in s[..|w|];
    }
    if s != [] {
      assert c !in s[1..];
      MissingCharNotContained(s[1..], w, c);
    }
  }

  /** A substring of a substring (the stripped or split-off part of a
      line) is a substring of the whole. */
  lemma SliceContains(s: string, i: nat, j: nat, w: string)
    requires i <= j <= |s|
    requires Contains(s[i..j], w)
    ensures Contains(s, w)
  {
    ContainsIff(s[i..j], w);
    var at: nat :| OccursAt(s[i..j], w, at);
    assert at + |w| <= j - i;
    forall k | 0 <= k < |w| ensures s[i + at + k] == w[k] {
      assert s[i..j][at..at + |w|][k] == w[k];
    }
    assert s[i + at..i + at + |w|] == w;
    OccursContains(s, w, i + at);
  }

  /** A word that begins and ends with a non-space character survives
      stripping: `w in s` and `w in s.strip()` agree for such a word. */
  lemma StripContains(s: string, w: string)
    requires w != [] && !IsSpace(w[0]) && !IsSpace(w[|w| - 1])
    ensures Contains(Strip(s), w) <==> Contains(s, w)
  {
    StripShape(s);
    var i, j :| 0 <= i <= j <= |s| && Strip(s) == s[i..j] && AllSpace(s[..i]) && AllSpace(s[j..]);
    if Contains(Strip(s), w) {
      SliceContains(s, i, j, w);
    }
    if Contains(s, w) {
      ContainsIff(s, w);
      var at: nat :| OccursAt(s, w, at);
      OccursInside(s, w, at, i, j);
    }
  }

  /** An occurrence of a word with non-space ends cannot overlap a blank
      prefix `s[..i]` or a blank suffix `s[j..]`. */
  lemma OccursInside(s: string, w: string, at: nat, i: nat, j: nat)
    requires w != [] && !IsSpace(w[0]) && !IsSpace(w[|w| - 1])
    requires i <= j <= |s| && AllSpace(s[..i]) && AllSpace(s[j..])
    requires OccursAt(s, w, at)
    ensures Contains(s[i..j], w)
  {
    assert s[at] == w[0] by { assert s[at..at + |w|][0] == s[at]; }
    var last := at + |w| - 1;
    assert s[last] == w[|w| - 1] by { assert s[at..at + |w|][|w| - 1] == s[last]; }
    assert i <= at && last < j;
    var t := s[i..j];
    forall k | 0 <= k < |w| ensures t[at - i + k] == w[k] {
      assert s[at..at + |w|][k] == w[k];
    }
    assert t[at - i..at - i + |w|] == w;
    OccursContains(t, w, at - i);
  }

  /** `w in a + w + b`: a text placed verbatim in a template is found in it. */
  lemma ContainsEmbedded(a: string, w: string, b: string)
    ensures OccursAt(a + w + b, w, |a|)
    ensures Contains(a + w + b, w)
  {
    assert (a + w + b)[|a|..|a| + |w|] == w;
    OccursContains(a + w + b, w, |a|);
  }

  /** A template with two slots holds each filled-in text at its slot's
      offset. */
  lemma TwoSlotsEmbedded(h: string, x: string, m: string, y: string, t: string)
    ensures OccursAt(h + x + m + y + t, x, |h|)
    ensures OccursAt(h + x + m + y + t, y, |h| + |x| + |m|)
    ensures Contains(h + x + m + y + t, x) && Contains(h + x + m + y + t, y)
  {
    ContainsEmbedded(h, x, m + y + t);
    assert h + x + (m + y + t) == h + x + m + y + t;
    ContainsEmbedded(h + x + m, y, t);
  }

  /** Index of the first `c` in `s`. */
  function FirstIndex(s: string, c: char): (i: nat)
    requires c in s
    ensures i < |s| && s[i] == c
  {
    if s[0] == c then 0 else 1 + FirstIndex(s[1..], c)
  }

  /** No `c` comes before the index `FirstIndex` finds. */
  lemma {:induction false} FirstIndexIsFirst(s: string, c: char)
    requires c in s
    ensures c !in s[..FirstIndex(s, c)]
  {
    if s[0] != c {
      FirstIndexIsFirst(s[1..], c);
      assert s[..FirstIndex(s, c)] == [s[0]] + s[1..][..FirstIndex(s[1..], c)];
    }
  }

  /** The first `c` of `a + [c] + b` is the one after `a` when `a` has
      none. */
  lemma {:induction false} FirstIndexAfter(a: string, c: char, b: string)
    requires c !in a
    ensures c in a + [c] + b
    ensures FirstIndex(a + [c] + b, c) == |a|
  {
    var s := a + [c] + b;
    assert s[|a|] == c;
    if a != [] {
      assert s[1..] == a[1..] + [c] + b;
      assert c !in a[1..];
      FirstIndexAfter(a[1..], c, b);
    }
  }

  /** `s.split(c, 1)` on a string that contains `c`: the parts before and
      after its first occurrence. */
  function SplitFirst(s: string, c: char): (string, string)
    requires c in s
  {
    var i := FirstIndex(s, c);
    (s[..i], s[i + 1..])
  }

  /** The part before the separator holds no separator, and the two parts
      joined by the separator give back the string. */
  lemma SplitFirstParts(s: string, c: char)
    requires c in s
    ensures c !in SplitFirst(s, c).0
    ensures SplitFirst(s, c).0 + [c] + SplitFirst(s, c).1 == s
  {
    FirstIndexIsFirst(s, c);
    var i := FirstIndex(s, c);
    assert s == s[..i] + [c] + s[i + 1..];
  }

  /** `s.split(c)`: the pieces of `s` between occurrences of `c`, in
      order; the empty string gives `[""]`. */
  function Split(s: string, c: char): (pieces: seq<string>)
    ensures |pieces| >= 1
    decreases |s|
  {
    if c in s then
      var (head, tail) := SplitFirst(s, c);
      [head] + Split(tail, c)
    else
      [s]
  }

  /** `c.join(pieces)`. */
  function Join(pieces: seq<string>, c: char): string
    requires |pieces| >= 1
  {
    if |pieces| == 1 then pieces[0] else pieces[0] + [c] + Join(pieces[1..], c)
  }

  /** No piece holds the separator. */
  lemma {:induction false} SplitPiecesFree(s: string, c: char)
    ensures forall k :: 0 <= k < |Split(s, c)| ==> c !in Split(s, c)[k]
    decreases |s|
  {
    if c in s {
      var (head, tail) := SplitFirst(s, c);
      SplitFirstParts(s, c);
      SplitPiecesFree(tail, c);
      forall k | 0 < k < |Split(s, c)| ensures c !in Split(s, c)[k] {
        assert Split(s, c)[k] == Split(tail, c)[k - 1];
      }
    }
  }

  /** Splitting loses nothing: joining the pieces back gives the input. */
  lemma {:induction false} JoinSplit(s: string, c: char)
    ensures Join(Split(s, c), c) == s
    decreases |s|
  {
    if c in s {
      var (head, tail) := SplitFirst(s, c);
      SplitFirstParts(s, c);
      JoinSplit(tail, c);
      assert Split(s, c)[1..] == Split(tail, c);
    }
  }

  /** Splitting is the inverse of joining separator-free pieces. */
  lemma {:induction false} SplitJoin(pieces: seq<string>, c: char)
    requires |pieces| >= 1
    requires forall k :: 0 <= k < |pieces| ==> c !in pieces[k]
    ensures Split(Join(pieces, c), c) == pieces
  {
    if |pieces| > 1 {
      var head, rest := pieces[0], Join(pieces[1..], c);
      var s := head + [c] + rest;
      assert Join(pieces, c) == s;
      assert c !in head;
      FirstIndexAfter(head, c, rest);
      assert s[..|head|] == head && s[|head| + 1..] == rest;
      assert SplitFirst(s, c) == (head, rest);
      SplitJoin(pieces[1..], c);
      assert Split(s, c) == [head] + pieces[1..];
    }
  }

  /** Joining one more piece appends the separator and that piece. */
  lemma {:induction false} JoinSnoc(pieces: seq<string>, x: string, c: char)
    requires |pieces| >= 1
    ensures Join(pieces + [x], c) == Join(pieces, c) + [c] + x
  {
    if |pieces| == 1 {
      assert (pieces + [x])[1..] == [x];
    } else {
      assert (pieces + [x])[1..] == pieces[1..] + [x];
      JoinSnoc(pieces[1..], x, c);
    }
  }

  /** A trailing separator adds one empty last piece and changes no other
      piece. */
  lemma SplitTrailing(s: string, c: char)
    ensures Split(s + [c], c) == Split(s, c) + [""]
  {
    var pieces := Split(s, c);
    SplitPiecesFree(s, c);
    JoinSplit(s, c);
    JoinSnoc(pieces, "", c);
    assert Join(pieces + [""], c) == s + [c] by {
      assert Join(pieces, c) + [c] + "" == s + [c];
    }
    forall k | 0 <= k < |pieces + [""]| ensures c !in (pieces + [""])[k] {
      if k < |pieces| {
        assert (pieces + [""])[k] == pieces[k];
      }
    }
    SplitJoin(pieces + [""], c);
  }

  /** Every piece of a blank string is blank. */
  lemma {:induction false} SplitAllSpace(s: string, c: char)
    requires AllSpace(s)
    ensures forall k :: 0 <= k < |Split(s, c)| ==> AllSpace(Split(s, c)[k])
    decreases |s|
  {
    if c in s {
      var (head, tail) := SplitFirst(s, c);
      var i := FirstIndex(s, c);
      assert head == s[..i] && tail == s[i + 1..];
      assert AllSpace(tail) by {
        forall k | 0 <= k < |tail| ensures IsSpace(tail[k]) { assert tail[k] == s[i + 1 + k]; }
      }
      assert AllSpace(head) by {
        forall k | 0 <= k < |head| ensures IsSpace(head[k]) { assert head[k] == s[k]; }
      }
      SplitAllSpace(tail, c);
      forall k | 0 <= k < |Split(s, c)| ensures AllSpace(Split(s, c)[k]) {
        if k > 0 { assert Split(s, c)[k] == Split(tail, c)[k - 1]; }
      }
    }
  }
}
