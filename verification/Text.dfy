/** Text as the two host languages see it: their white space, trimming, and splitting into lines. */
module Text {
  datatype Host = JavaScript | Python

  /** What `trim` (JavaScript) or `strip` (Python) removes; JavaScript's `\s` is the same set. */
  predicate IsSpace(host: Host, c: char) {
    || '\t' <= c <= '\r' || c == ' ' || c == '\U{00A0}' || c == '\U{1680}'
    || '\U{2000}' <= c <= '\U{200A}' || c == '\U{2028}' || c == '\U{2029}' || c == '\U{202F}'
    || c == '\U{205F}' || c == '\U{3000}'
    || match host
       case JavaScript => c == '\U{FEFF}'
       case Python => '\U{001C}' <= c <= '\U{001F}' || c == '\U{0085}'
  }

  predicate Blank(host: Host, s: string) {
    forall i :: 0 <= i < |s| ==> IsSpace(host, s[i])
  }

  /** Nothing to trim at either end. */
  predicate Tight(host: Host, s: string) {
    s != "" ==> !IsSpace(host, s[0]) && !IsSpace(host, s[|s| - 1])
  }

  function TrimStart(host: Host, s: string): (r: string)
    ensures |r| <= |s|
  {
    if s != "" && IsSpace(host, s[0]) then TrimStart(host, s[1..]) else s
  }

  function TrimEnd(host: Host, s: string): (r: string)
    ensures |r| <= |s|
  {
    if s != "" && IsSpace(host, s[|s| - 1]) then TrimEnd(host, s[..|s| - 1]) else s
  }

  function Trim(host: Host, s: string): (r: string)
    ensures |r| <= |s|
  {
    TrimEnd(host, TrimStart(host, s))
  }

  lemma {:induction false} TrimStartParts(host: Host, s: string) returns (before: string)
    ensures s == before + TrimStart(host, s) && Blank(host, before)
    ensures TrimStart(host, s) != "" ==> !IsSpace(host, TrimStart(host, s)[0])
  {
    if s != "" && IsSpace(host, s[0]) {
      var b := TrimStartParts(host, s[1..]);
      before := [s[0]] + b;
      assert s == [s[0]] + s[1..];
    } else {
      before := "";
    }
  }

  lemma {:induction false} TrimEndParts(host: Host, s: string) returns (after: string)
    ensures s == TrimEnd(host, s) + after && Blank(host, after)
    ensures TrimEnd(host, s) != "" ==> !IsSpace(host, TrimEnd(host, s)[|TrimEnd(host, s)| - 1])
  {
    if s != "" && IsSpace(host, s[|s| - 1]) {
      var a := TrimEndParts(host, s[..|s| - 1]);
      after := a + [s[|s| - 1]];
      assert s == s[..|s| - 1] + [s[|s| - 1]];
    } else {
      after := "";
    }
  }

  /** Trimming cuts blank text off both ends. */
  lemma TrimParts(host: Host, s: string) returns (before: string, after: string)
    ensures s == before + Trim(host, s) + after
    ensures Blank(host, before) && Blank(host, after) && Tight(host, Trim(host, s))
  {
    before := TrimStartParts(host, s);
    after := TrimEndParts(host, TrimStart(host, s));
  }

  lemma {:induction false} TrimStartUnique(host: Host, before: string, rest: string)
    requires Blank(host, before) && (rest != "" ==> !IsSpace(host, rest[0]))
    ensures TrimStart(host, before + rest) == rest
  {
    if before == "" {
      assert before + rest == rest;
    } else {
      assert (before + rest)[1..] == before[1..] + rest;
      TrimStartUnique(host, before[1..], rest);
    }
  }

  lemma {:induction false} TrimEndUnique(host: Host, rest: string, after: string)
    requires Blank(host, after) && (rest != "" ==> !IsSpace(host, rest[|rest| - 1]))
    ensures TrimEnd(host, rest + after) == rest
  {
    if after == "" {
      assert rest + after == rest;
    } else {
      assert (rest + after)[..|rest + after| - 1] == rest + after[..|after| - 1];
      TrimEndUnique(host, rest, after[..|after| - 1]);
    }
  }

  /** Trimming is the only way to cut blank ends off a text. */
  lemma TrimUnique(host: Host, before: string, middle: string, after: string)
    requires Blank(host, before) && Blank(host, after) && Tight(host, middle)
    ensures Trim(host, before + middle + after) == middle
  {
    if middle == "" {
      assert before + middle + after == (before + after) + "";
      TrimStartUnique(host, before + after, "");
    } else {
      assert before + middle + after == before + (middle + after);
      TrimStartUnique(host, before, middle + after);
      TrimEndUnique(host, middle, after);
    }
  }

  lemma TrimTight(host: Host, s: string)
    requires Tight(host, s)
    ensures Trim(host, s) == s
  {
    assert s == "" + s + "";
    TrimUnique(host, "", s, "");
  }

  lemma TrimTwice(host: Host, s: string)
    ensures Trim(host, Trim(host, s)) == Trim(host, s)
  {
    var before, after := TrimParts(host, s);
    TrimTight(host, Trim(host, s));
  }

  lemma TrimBlank(host: Host, s: string)
    ensures Trim(host, s) == "" <==> Blank(host, s)
  {
    var before, after := TrimParts(host, s);
    if Blank(host, s) {
      assert s == s + "" + "";
      TrimUnique(host, s, "", "");
    }
  }

  // ---- Characters and words ----

  function LowerChar(c: char): char {
    if 'A' <= c <= 'Z' then ((c - 'A') as int + 'a' as int) as char else c
  }

  /** Lower case, for ASCII letters. */
  function Lower(s: string): (r: string)
    ensures |r| == |s|
  {
    seq(|s|, i requires 0 <= i < |s| => LowerChar(s[i]))
  }

  predicate WordChar(c: char) {
    'A' <= c <= 'Z' || 'a' <= c <= 'z' || '0' <= c <= '9' || c == '_'
  }

  /** The word followed by a word boundary. */
  predicate StartsWord(s: string, word: string) {
    word <= s && (|s| == |word| || !WordChar(s[|word|]))
  }

  /** `a || b` on texts. */
  function FirstOf(a: string, b: string): string {
    if a != "" then a else b
  }

  // ---- Lines ----

  predicate OneLine(s: string) {
    '\n' !in s
  }

  /** `s.split("\n")`. */
  function Split(s: string): (r: seq<string>)
    ensures r != []
  {
    if s == "" then [""]
    else
      var rest := Split(s[1..]);
      if s[0] == '\n' then [""] + rest else [[s[0]] + rest[0]] + rest[1..]
  }

  function Join(parts: seq<string>, sep: string): string {
    if parts == [] then ""
    else if |parts| == 1 then parts[0]
    else parts[0] + sep + Join(parts[1..], sep)
  }

  ghost predicate OneLiners(parts: seq<string>) {
    forall i :: 0 <= i < |parts| ==> OneLine(parts[i])
  }

  lemma {:induction false} JoinSplit(s: string)
    ensures Join(Split(s), "\n") == s
    ensures OneLiners(Split(s))
  {
    if s != "" {
      JoinSplit(s[1..]);
      var rest := Split(s[1..]);
      if s[0] == '\n' {
        assert ([""] + rest)[1..] == rest;
        assert "" + "\n" + s[1..] == s;
      } else {
        var r := [[s[0]] + rest[0]] + rest[1..];
        assert r[1..] == rest[1..];
        assert [s[0]] + s[1..] == s;
        if |rest| > 1 {
          assert [s[0]] + rest[0] + "\n" + Join(rest[1..], "\n") == [s[0]] + (rest[0] + "\n" + Join(rest[1..], "\n"));
        }
      }
    }
  }

  lemma {:induction false} SplitOneLine(s: string)
    requires OneLine(s)
    ensures Split(s) == [s]
  {
    if s != "" {
      assert forall i :: 0 <= i < |s[1..]| ==> s[1..][i] == s[i + 1];
      SplitOneLine(s[1..]);
      assert [s[0]] + s[1..] == s;
    }
  }

  lemma {:induction false} SplitAppend(s: string, t: string)
    requires OneLine(s)
    ensures Split(s + "\n" + t) == [s] + Split(t)
  {
    if s == "" {
      assert s + "\n" + t == "\n" + t;
      assert ("\n" + t)[1..] == t;
    } else {
      var all := s + "\n" + t;
      assert all[1..] == s[1..] + "\n" + t;
      assert forall i :: 0 <= i < |s[1..]| ==> s[1..][i] == s[i + 1];
      SplitAppend(s[1..], t);
      assert [s[0]] + s[1..] == s;
      assert ([s[1..]] + Split(t))[1..] == Split(t);
    }
  }

  lemma {:induction false} SplitJoin(parts: seq<string>)
    requires parts != [] && OneLiners(parts)
    ensures Split(Join(parts, "\n")) == parts
  {
    if |parts| == 1 {
      SplitOneLine(parts[0]);
    } else {
      SplitJoin(parts[1..]);
      SplitAppend(parts[0], Join(parts[1..], "\n"));
      assert [parts[0]] + parts[1..] == parts;
    }
  }

  lemma {:induction false} JoinSnoc(parts: seq<string>, last: string, sep: string)
    requires parts != []
    ensures Join(parts + [last], sep) == Join(parts, sep) + sep + last
  {
    if |parts| == 1 {
      assert (parts + [last])[1..] == [last];
    } else {
      assert (parts + [last])[1..] == parts[1..] + [last];
      JoinSnoc(parts[1..], last, sep);
      assert parts[0] + sep + (Join(parts[1..], sep) + sep + last) == (parts[0] + sep + Join(parts[1..], sep)) + sep + last;
    }
  }

  lemma BlankConcat(host: Host, a: string, b: string)
    ensures Blank(host, a + b) <==> Blank(host, a) && Blank(host, b)
  {
    if Blank(host, a + b) {
      assert forall i :: 0 <= i < |a| ==> a[i] == (a + b)[i];
      assert forall i :: 0 <= i < |b| ==> b[i] == (a + b)[|a| + i];
    }
  }

  lemma TrimEndEmpty(host: Host, s: string)
    ensures TrimEnd(host, s) == "" <==> Blank(host, s)
  {
    var after := TrimEndParts(host, s);
    assert "" + after == after;
    if Blank(host, s) {
      assert "" + s == s;
      TrimEndUnique(host, "", s);
    }
  }

  /** The end of a text is trimmed within its last part, unless that part is blank. */
  lemma TrimEndConcat(host: Host, a: string, b: string)
    ensures TrimEnd(host, a + b) == if Blank(host, b) then TrimEnd(host, a) else a + TrimEnd(host, b)
  {
    if Blank(host, b) {
      var after := TrimEndParts(host, a);
      BlankConcat(host, after, b);
      Assoc(TrimEnd(host, a), after, b);
      TrimEndUnique(host, TrimEnd(host, a), after + b);
    } else {
      var after := TrimEndParts(host, b);
      var r := TrimEnd(host, b);
      TrimEndEmpty(host, b);
      Assoc(a, r, after);
      assert (a + r)[|a + r| - 1] == r[|r| - 1];
      TrimEndUnique(host, a + r, after);
    }
  }

  lemma Assoc<T>(a: seq<T>, b: seq<T>, c: seq<T>)
    ensures (a + b) + c == a + (b + c)
  {
  }

  lemma TrimEndOfBlank(host: Host, s: string)
    requires Blank(host, s)
    ensures TrimEnd(host, s) == "" && Trim(host, s) == ""
  {
    assert "" + s == s;
    TrimEndUnique(host, "", s);
    TrimBlank(host, s);
  }

  /** Trimming the end first makes no difference to trimming. */
  lemma TrimOfTrimEnd(host: Host, s: string)
    ensures Trim(host, TrimEnd(host, s)) == Trim(host, s)
  {
    var before, after := TrimParts(host, s);
    var t := Trim(host, s);
    if t == "" {
      TrimBlank(host, s);
      TrimEndOfBlank(host, s);
    } else {
      assert (before + t)[|before + t| - 1] == t[|t| - 1];
      TrimEndUnique(host, before + t, after);
      assert before + t == before + t + "";
      TrimUnique(host, before, t, "");
    }
  }

  /** Blank text put in front or behind makes no difference to trimming. */
  lemma TrimPadded(host: Host, before: string, s: string, after: string)
    requires Blank(host, before) && Blank(host, after)
    ensures Trim(host, before + s + after) == Trim(host, s)
  {
    var b, a := TrimParts(host, s);
    var t := Trim(host, s);
    BlankConcat(host, before, b);
    BlankConcat(host, a, after);
    assert before + s + after == (before + b) + t + (a + after);
    TrimUnique(host, before + b, t, a + after);
  }

  /** Two lists of lines put together, the last line of one running into the first of the other. */
  function Seam(x: seq<string>, y: seq<string>): (r: seq<string>)
    requires x != [] && y != []
    ensures |r| == |x| + |y| - 1
  {
    if |x| == 1 then [x[0] + y[0]] + y[1..] else [x[0]] + Seam(x[1..], y)
  }

  lemma {:induction false} SplitConcat(a: string, b: string)
    ensures Split(a + b) == Seam(Split(a), Split(b))
  {
    if a == "" {
      assert a + b == b;
      assert "" + Split(b)[0] == Split(b)[0];
      assert [Split(b)[0]] + Split(b)[1..] == Split(b);
    } else {
      SplitConcat(a[1..], b);
      assert (a + b)[1..] == a[1..] + b;
      var x := Split(a[1..]);
      if a[0] == '\n' {
        assert ([""] + x)[1..] == x;
      } else {
        SeamHead(a[0], x, Split(b));
      }
    }
  }

  lemma SeamHead(c: char, x: seq<string>, y: seq<string>)
    requires x != [] && y != []
    ensures Seam([[c] + x[0]] + x[1..], y) == [[c] + Seam(x, y)[0]] + Seam(x, y)[1..]
  {
    var x' := [[c] + x[0]] + x[1..];
    if |x| == 1 {
      Assoc([c], x[0], y[0]);
    } else {
      assert x'[1..] == x[1..];
    }
  }

  lemma {:induction false} SeamBreak(x: seq<string>, y: seq<string>)
    requires x != []
    ensures Seam(x, [""] + y) == x + y
  {
    assert ([""] + y)[1..] == y && x == [x[0]] + x[1..];
    if |x| == 1 {
      assert x[0] + "" == x[0];
    } else {
      SeamBreak(x[1..], y);
      assert [x[0]] + (x[1..] + y) == x + y;
    }
  }

  lemma SplitBreak(s: string, t: string)
    ensures Split(s + "\n" + t) == Split(s) + Split(t)
  {
    Assoc(s, "\n", t);
    SplitConcat(s, "\n" + t);
    assert ("\n" + t)[1..] == t;
    SeamBreak(Split(s), Split(t));
  }

  lemma SplitTrailing(s: string)
    ensures Split(s + "\n") == Split(s) + [""]
  {
    SplitBreak(s, "");
    assert s + "\n" + "" == s + "\n";
  }

  /** The white space of both hosts, character by character: the space separators of Unicode and the line ends;
      JavaScript adds the byte order mark, Python four separators and the next line. */
  lemma WhiteSpaceIs(host: Host, c: char)
    ensures IsSpace(host, c) <==>
              || c in "\t\n\U{000B}\U{000C}\r \U{00A0}\U{1680}"
              || c in "\U{2000}\U{2001}\U{2002}\U{2003}\U{2004}\U{2005}\U{2006}\U{2007}\U{2008}\U{2009}\U{200A}"
              || c in "\U{2028}\U{2029}\U{202F}\U{205F}\U{3000}"
              || (host == JavaScript && c == '\U{FEFF}')
              || (host == Python && c in "\U{001C}\U{001D}\U{001E}\U{001F}\U{0085}")
  {
  }
}
