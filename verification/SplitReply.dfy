/** Cutting a reply into messages of at most `max_chars` characters, at line breaks where it can. */
module SplitReply {
  import opened Text

  /** `rest.rfind("\n", 0, end)`: the last line break before `end`, or -1. */
  function LastBreak(s: string, end: nat): (r: int)
    requires end <= |s|
    ensures -1 <= r < end
    ensures r >= 0 ==> s[r] == '\n'
    ensures forall i :: r < i < end ==> s[i] != '\n'
  {
    if end == 0 then -1 else if s[end - 1] == '\n' then end - 1 else LastBreak(s, end - 1)
  }

  function Cut(rest: string, limit: nat): (cut: nat)
    requires 0 < limit < |rest|
    ensures limit / 2 <= cut <= limit
    ensures cut == 0 ==> IsSpace(Python, rest[0])
  {
    var found := LastBreak(rest, limit);
    if found < limit / 2 then limit else found
  }

  /** The cut is at the last line break in the second half of the limit, and at the limit itself exactly
      when that half has no line break. */
  lemma CutAtLastBreak(rest: string, limit: nat)
    requires 0 < limit < |rest|
    ensures var cut := Cut(rest, limit);
            && (forall i :: cut < i < limit ==> rest[i] != '\n')
            && (cut < limit ==> rest[cut] == '\n')
            && (cut == limit <==> forall i :: limit / 2 <= i < limit ==> rest[i] != '\n')
  {
    var found := LastBreak(rest, limit);
  }

  /** What is left after a cut is shorter, even for a limit of one and a leading line break. */
  lemma RestShrinks(rest: string, limit: nat)
    requires 0 < limit < |rest|
    ensures |Trim(Python, rest[Cut(rest, limit)..])| + Cut(rest, limit) <= |rest|
    ensures |Trim(Python, rest[Cut(rest, limit)..])| < |rest|
  {
    var cut := Cut(rest, limit);
    if cut == 0 {
      assert rest[cut..] == rest;
    }
  }

  /** The chunks of a text under a positive limit. */
  function Chop(rest: string, limit: nat): seq<string>
    requires limit > 0
    decreases |rest|
  {
    if rest == "" then []
    else if |rest| <= limit then [rest]
    else
      var cut := Cut(rest, limit);
      RestShrinks(rest, limit);
      [Trim(Python, rest[..cut])] + Chop(Trim(Python, rest[cut..]), limit)
  }

  function Reply(text: string, maxChars: int): seq<string> {
    if maxChars <= 0 || |text| <= maxChars then [text] else Chop(text, maxChars)
  }

  method SplitReply(text: string, maxChars: int) returns (chunks: seq<string>)
    ensures chunks == Reply(text, maxChars)
  {
    if maxChars <= 0 || |text| <= maxChars {
      return [text];
    }
    chunks := [];
    var rest := text;
    while |rest| > maxChars
      invariant chunks + Chop(rest, maxChars) == Chop(text, maxChars)
      decreases |rest|
    {
      var cut := LastBreak(rest, maxChars);
      if cut < maxChars / 2 {
        cut := maxChars;
      }
      RestShrinks(rest, maxChars);
      Assoc(chunks, [Trim(Python, rest[..cut])], Chop(Trim(Python, rest[cut..]), maxChars));
      chunks := chunks + [Trim(Python, rest[..cut])];
      rest := Trim(Python, rest[cut..]);
    }
    if rest != "" {
      chunks := chunks + [rest];
    }
  }

  // ---- Nothing but white space between the chunks is lost ----

  /** A text put together from chunks and the gaps before, between and after them. */
  function Weave(gaps: seq<string>, chunks: seq<string>): string
    requires |gaps| == |chunks| + 1
  {
    if chunks == [] then gaps[0] else gaps[0] + chunks[0] + Weave(gaps[1..], chunks[1..])
  }

  ghost predicate Blanks(gaps: seq<string>) {
    forall i :: 0 <= i < |gaps| ==> Blank(Python, gaps[i])
  }

  /** The first gap can be widened to the left, the last one to the right. */
  lemma WidenFirst(before: string, gaps: seq<string>, chunks: seq<string>) returns (wider: seq<string>)
    requires |gaps| == |chunks| + 1 && Blanks(gaps) && Blank(Python, before)
    ensures |wider| == |gaps| && Blanks(wider) && Weave(wider, chunks) == before + Weave(gaps, chunks)
  {
    BlankConcat(Python, before, gaps[0]);
    wider := [before + gaps[0]] + gaps[1..];
    if chunks != [] {
      assert wider[1..] == gaps[1..];
    }
  }

  lemma {:induction false} WidenLast(gaps: seq<string>, chunks: seq<string>, after: string) returns (wider: seq<string>)
    requires |gaps| == |chunks| + 1 && Blanks(gaps) && Blank(Python, after)
    ensures |wider| == |gaps| && Blanks(wider) && Weave(wider, chunks) == Weave(gaps, chunks) + after
  {
    if chunks == [] {
      BlankConcat(Python, gaps[0], after);
      wider := [gaps[0] + after];
    } else {
      var w := WidenLast(gaps[1..], chunks[1..], after);
      wider := [gaps[0]] + w;
      assert [chunks[0]] + chunks[1..] == chunks;
      Assoc(gaps[0] + chunks[0], Weave(gaps[1..], chunks[1..]), after);
    }
  }

  lemma CutParts(rest: string, cut: nat) returns (a: string, b: string, c: string, d: string)
    requires cut <= |rest|
    ensures Blank(Python, a) && Blank(Python, b) && Blank(Python, c) && Blank(Python, d)
    ensures rest == (a + Trim(Python, rest[..cut])) + (b + (c + Trim(Python, rest[cut..]) + d))
  {
    a, b := TrimParts(Python, rest[..cut]);
    c, d := TrimParts(Python, rest[cut..]);
    assert rest == rest[..cut] + rest[cut..];
    Assoc(a + Trim(Python, rest[..cut]), b, c + Trim(Python, rest[cut..]) + d);
  }

  lemma {:induction false} ChopWeaves(rest: string, limit: nat) returns (gaps: seq<string>)
    requires limit > 0
    ensures |gaps| == |Chop(rest, limit)| + 1 && Blanks(gaps)
    ensures Weave(gaps, Chop(rest, limit)) == rest
    decreases |rest|
  {
    if rest == "" {
      gaps := [""];
    } else if |rest| <= limit {
      gaps := ["", ""];
    } else {
      var cut := Cut(rest, limit);
      RestShrinks(rest, limit);
      var a, b, c, d := CutParts(rest, cut);
      var next := Trim(Python, rest[cut..]);
      var g0 := ChopWeaves(next, limit);
      var g1 := WidenFirst(c, g0, Chop(next, limit));
      var g2 := WidenLast(g1, Chop(next, limit), d);
      var g3 := WidenFirst(b, g2, Chop(next, limit));
      gaps := [a] + g3;
    }
  }

  /** The reply is its chunks in order with white space before, between and after them, and nothing
      else: inside a chunk every character is kept. */
  lemma ReplyKeepsText(text: string, maxChars: int) returns (gaps: seq<string>)
    ensures |gaps| == |Reply(text, maxChars)| + 1 && Blanks(gaps)
    ensures Weave(gaps, Reply(text, maxChars)) == text
  {
    if maxChars <= 0 || |text| <= maxChars {
      gaps := ["", ""];
    } else {
      gaps := ChopWeaves(text, maxChars);
    }
  }

  /** The characters that are not white space. */
  function Ink(s: string): string {
    if s == "" then "" else (if IsSpace(Python, s[0]) then "" else [s[0]]) + Ink(s[1..])
  }

  function Flat(chunks: seq<string>): string {
    if chunks == [] then "" else chunks[0] + Flat(chunks[1..])
  }

  lemma {:induction false} InkConcat(a: string, b: string)
    ensures Ink(a + b) == Ink(a) + Ink(b)
  {
    if a == "" {
      assert a + b == b;
    } else {
      assert (a + b)[1..] == a[1..] + b;
      InkConcat(a[1..], b);
    }
  }

  lemma {:induction false} InkBlank(s: string)
    requires Blank(Python, s)
    ensures Ink(s) == ""
  {
    if s != "" { InkBlank(s[1..]); }
  }

  lemma {:induction false} InkOfWeave(gaps: seq<string>, chunks: seq<string>)
    requires |gaps| == |chunks| + 1 && Blanks(gaps)
    ensures Ink(Weave(gaps, chunks)) == Ink(Flat(chunks))
  {
    InkBlank(gaps[0]);
    if chunks != [] {
      InkOfWeave(gaps[1..], chunks[1..]);
      InkConcat(gaps[0] + chunks[0], Weave(gaps[1..], chunks[1..]));
      InkConcat(gaps[0], chunks[0]);
      InkConcat(chunks[0], Flat(chunks[1..]));
    }
  }

  /** The characters that are not white space arrive complete and in order. */
  lemma InkConserved(text: string, maxChars: int)
    ensures Ink(Flat(Reply(text, maxChars))) == Ink(text)
  {
    var gaps := ReplyKeepsText(text, maxChars);
    InkOfWeave(gaps, Reply(text, maxChars));
  }

  // ---- The shape of the chunks ----

  lemma {:induction false} ChopFits(rest: string, limit: nat)
    requires limit > 0
    ensures forall i :: 0 <= i < |Chop(rest, limit)| ==> |Chop(rest, limit)[i]| <= limit
    decreases |rest|
  {
    if |rest| > limit {
      RestShrinks(rest, limit);
      ChopFits(Trim(Python, rest[Cut(rest, limit)..]), limit);
    }
  }

  /** Every chunk fits the limit. */
  lemma ChunksFit(text: string, maxChars: int)
    requires maxChars > 0
    ensures forall i :: 0 <= i < |Reply(text, maxChars)| ==> |Reply(text, maxChars)[i]| <= maxChars
  {
    ChopFits(text, maxChars);
  }

  lemma TrimIsTight(s: string)
    ensures Tight(Python, Trim(Python, s))
  {
    var before, after := TrimParts(Python, s);
  }

  lemma InkNotTrimmed(s: string)
    requires s != "" && !IsSpace(Python, s[0])
    ensures Trim(Python, s) != ""
  {
    TrimBlank(Python, s);
  }

  /** Once the text in hand begins with a visible character, no chunk is empty. */
  lemma {:induction false} ChopNotEmpty(rest: string, limit: nat)
    requires limit > 0 && Tight(Python, rest)
    ensures forall i :: 0 <= i < |Chop(rest, limit)| ==> Chop(rest, limit)[i] != ""
    decreases |rest|
  {
    if |rest| > limit {
      var cut := Cut(rest, limit);
      RestShrinks(rest, limit);
      InkNotTrimmed(rest[..cut]);
      TrimIsTight(rest[cut..]);
      ChopNotEmpty(Trim(Python, rest[cut..]), limit);
    }
  }

  /** Only the first chunk can be empty. */
  lemma OnlyFirstChunkEmpty(text: string, maxChars: int)
    ensures Reply(text, maxChars) != []
    ensures forall i :: 0 < i < |Reply(text, maxChars)| ==> Reply(text, maxChars)[i] != ""
  {
    if !(maxChars <= 0 || |text| <= maxChars) {
      var cut := Cut(text, maxChars);
      RestShrinks(text, maxChars);
      var next := Trim(Python, text[cut..]);
      TrimIsTight(text[cut..]);
      ChopNotEmpty(next, maxChars);
      assert Reply(text, maxChars) == [Trim(Python, text[..cut])] + Chop(next, maxChars);
    }
  }

  /** Whitespace at the ends of a chunk is always trimmed when the text had to be split. */
  lemma {:induction false} ChopTight(rest: string, limit: nat)
    requires limit > 0 && (|rest| > limit || Tight(Python, rest))
    ensures forall i :: 0 <= i < |Chop(rest, limit)| ==> Tight(Python, Chop(rest, limit)[i])
    decreases |rest|
  {
    if |rest| > limit {
      var cut := Cut(rest, limit);
      RestShrinks(rest, limit);
      TrimIsTight(rest[..cut]);
      TrimIsTight(rest[cut..]);
      ChopTight(Trim(Python, rest[cut..]), limit);
    }
  }

  predicate Within(n: nat, half: nat, length: nat) {
    n * half <= length
  }

  lemma OneMore(n: nat, half: nat, cut: nat, left: nat, whole: nat)
    requires Within(n, half, left) && half <= cut && left + cut <= whole
    ensures Within(n + 1, half, whole)
  {
  }

  lemma NoneYet(half: nat, whole: nat)
    ensures Within(0, half, whole)
  {
  }

  lemma ChopUnfolds(rest: string, limit: nat, next: string)
    requires 0 < limit < |rest| && next == Trim(Python, rest[Cut(rest, limit)..])
    ensures |Chop(rest, limit)| == 1 + |Chop(next, limit)|
  {
    RestShrinks(rest, limit);
  }

  lemma CountMore(n: nat, half: nat, cut: nat, next: nat, rest: nat)
    requires half <= cut && next + cut <= rest
    requires if next == 0 then n == 0 else n > 0 && Within(n - 1, half, next)
    ensures Within(n, half, rest)
  {
    if next == 0 {
      NoneYet(half, rest);
    } else {
      OneMore(n - 1, half, cut, next, rest);
    }
  }

  lemma ChopMore(rest: string, limit: nat, half: nat, next: string)
    requires 0 < limit < |rest| && half == limit / 2 && next == Trim(Python, rest[Cut(rest, limit)..])
    requires next == "" ==> Chop(next, limit) == []
    requires next != "" ==> Chop(next, limit) != [] && Within(|Chop(next, limit)| - 1, half, |next|)
    ensures Chop(rest, limit) != [] && Within(|Chop(rest, limit)| - 1, half, |rest|)
  {
    ChopUnfolds(rest, limit, next);
    RestShrinks(rest, limit);
    CountMore(|Chop(next, limit)|, half, Cut(rest, limit), |next|, |rest|);
  }

  lemma {:induction false} ChopCount(rest: string, limit: nat, half: nat)
    requires limit > 0 && half == limit / 2
    ensures rest == "" ==> Chop(rest, limit) == []
    ensures rest != "" ==> Chop(rest, limit) != [] && Within(|Chop(rest, limit)| - 1, half, |rest|)
    decreases |rest|
  {
    if |rest| > limit {
      RestShrinks(rest, limit);
      var next := Trim(Python, rest[Cut(rest, limit)..]);
      ChopCount(next, limit, half);
      ChopMore(rest, limit, half, next);
    } else {
      NoneYet(half, |rest|);
    }
  }

  /** The number of chunks is bounded: all but one use up at least half the limit. */
  lemma ChunkCount(text: string, maxChars: int)
    requires maxChars > 0
    ensures Reply(text, maxChars) != []
    ensures (|Reply(text, maxChars)| - 1) * (maxChars / 2) <= |text|
  {
    if |text| > maxChars {
      ChopCount(text, maxChars, maxChars / 2);
    } else {
      assert |Reply(text, maxChars)| == 1;
    }
  }
}
