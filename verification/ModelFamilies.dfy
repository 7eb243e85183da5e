/** The family a model id belongs to, by the pattern its normalized form begins with. */
module ModelFamilies {
  import opened Text
  import opened Decimal

  datatype Family =
    | Gpt | OSeries | Codex | Claude | Gemini | DeepSeek | Qwen | Glm | Kimi | Grok | Llama | Mistral
    | Other

  datatype Pattern = Word(text: string) | WordAndDigit(text: string)

  const FAMILY_ORDER: seq<Family> :=
    [Gpt, OSeries, Codex, Claude, Gemini, DeepSeek, Qwen, Glm, Kimi, Grok, Llama, Mistral, Other]

  function Names(f: Family): seq<Pattern> {
    match f
    case Gpt => [Word("gpt"), Word("chatgpt")]
    case OSeries => [WordAndDigit("o")]
    case Codex => [Word("codex")]
    case Claude => [Word("claude")]
    case Gemini => [Word("gemini")]
    case DeepSeek => [Word("deepseek")]
    case Qwen => [Word("qwen"), Word("qwq")]
    case Glm => [Word("glm")]
    case Kimi => [Word("kimi")]
    case Grok => [Word("grok")]
    case Llama => [Word("llama")]
    case Mistral => [Word("mistral")]
    case Other => []
  }

  // ---- The family of a model ----

  function Dashes(s: string): (r: string)
    ensures |r| == |s|
  {
    seq(|s|, i requires 0 <= i < |s| => if s[i] in "._/:" then '-' else s[i])
  }

  function SkipDigits(s: string): (r: string)
    ensures |r| <= |s|
  {
    if s != "" && '0' <= s[0] <= '9' then SkipDigits(s[1..]) else s
  }

  /** `[0-9]*(?:-|$)` at the start of a text. */
  predicate Versioned(s: string) {
    var rest := SkipDigits(s);
    rest == "" || rest[0] == '-'
  }

  predicate Tests(p: Pattern, s: string) {
    && p.text <= s
    && match p
       case Word(w) => Versioned(s[|w|..])
       case WordAndDigit(w) => |s| > |w| && '1' <= s[|w|] <= '9' && Versioned(s[|w| + 1..])
  }

  predicate Matches(f: Family, s: string) {
    exists i :: 0 <= i < |Names(f)| && Tests(Names(f)[i], s)
  }

  function Normalized(model: string): string {
    Dashes(Lower(Trim(JavaScript, model)))
  }

  function FirstMatch(s: string, families: seq<Family>): Family {
    if families == [] then Other
    else if Matches(families[0], s) then families[0]
    else FirstMatch(s, families[1..])
  }

  function FamilyOf(model: string): Family {
    FirstMatch(Normalized(model), FAMILY_ORDER)
  }

  /** The first two characters of a text that matches a family. */
  predicate Opens(f: Family, a: char, b: char) {
    match f
    case Gpt => (a == 'g' && b == 'p') || (a == 'c' && b == 'h')
    case OSeries => a == 'o' && '1' <= b <= '9'
    case Codex => a == 'c' && b == 'o'
    case Claude => a == 'c' && b == 'l'
    case Gemini => a == 'g' && b == 'e'
    case DeepSeek => a == 'd' && b == 'e'
    case Qwen => a == 'q' && b == 'w'
    case Glm => a == 'g' && b == 'l'
    case Kimi => a == 'k' && b == 'i'
    case Grok => a == 'g' && b == 'r'
    case Llama => a == 'l' && b == 'l'
    case Mistral => a == 'm' && b == 'i'
    case Other => false
  }

  lemma MatchOpens(f: Family, s: string)
    requires Matches(f, s)
    ensures |s| >= 2 && Opens(f, s[0], s[1])
  {
    var i :| 0 <= i < |Names(f)| && Tests(Names(f)[i], s);
    NamesOpen(f, i, s);
  }

  lemma NamesOpen(f: Family, i: nat, s: string)
    requires i < |Names(f)| && Tests(Names(f)[i], s)
    requires var w := Names(f)[i].text; forall k :: 0 <= k < |w| ==> s[k] == w[k]
    ensures |s| >= 2 && Opens(f, s[0], s[1])
  {
    var w := Names(f)[i].text;
    assert |w| >= 1 && s[0] == w[0];
  }

  /** No text matches two families, so the order of the table does not decide where a model goes. */
  lemma FamiliesDisjoint(f: Family, g: Family, s: string)
    requires Matches(f, s) && Matches(g, s)
    ensures f == g
  {
    MatchOpens(f, s);
    MatchOpens(g, s);
  }

  lemma {:induction false} FirstMatchIs(s: string, families: seq<Family>, f: Family)
    requires Matches(f, s)
    ensures FirstMatch(s, families) == if f in families then f else Other
  {
    if families != [] {
      if Matches(families[0], s) { FamiliesDisjoint(f, families[0], s); }
      FirstMatchIs(s, families[1..], f);
    }
  }

  lemma {:induction false} FirstMatchMatches(s: string, families: seq<Family>)
    ensures FirstMatch(s, families) == Other || Matches(FirstMatch(s, families), s)
  {
    if families != [] { FirstMatchMatches(s, families[1..]); }
  }

  lemma EveryFamilyListed(f: Family)
    ensures f in FAMILY_ORDER
  {
    var i := match f
      case Gpt => 0 case OSeries => 1 case Codex => 2 case Claude => 3 case Gemini => 4 case DeepSeek => 5
      case Qwen => 6 case Glm => 7 case Kimi => 8 case Grok => 9 case Llama => 10 case Mistral => 11 case Other => 12;
    assert FAMILY_ORDER[i] == f;
  }

  /** A model belongs to a named family exactly when its normalized id matches that family's pattern. */
  lemma FamilyIffMatches(model: string, f: Family)
    requires f != Other
    ensures FamilyOf(model) == f <==> Matches(f, Normalized(model))
  {
    var s := Normalized(model);
    FirstMatchMatches(s, FAMILY_ORDER);
    if Matches(f, s) {
      FirstMatchIs(s, FAMILY_ORDER, f);
      EveryFamilyListed(f);
    }
  }

  /** What the version part of the pattern means: some digits, then a dash or the end. */
  ghost predicate VersionEnds(s: string, k: int) {
    0 <= k <= |s| && AllDigits(s[..k]) && (k == |s| || s[k] == '-')
  }

  lemma {:induction false} VersionedMeans(s: string)
    ensures Versioned(s) <==> exists k :: VersionEnds(s, k)
  {
    if s != "" && '0' <= s[0] <= '9' {
      VersionedMeans(s[1..]);
      if k :| VersionEnds(s, k) { VersionEndsTail(s, k); }
      if k :| VersionEnds(s[1..], k) { VersionEndsTail(s, k + 1); }
    } else {
      assert VersionEnds(s, 0) <==> Versioned(s);
      forall k | VersionEnds(s, k)
        ensures k == 0
      {
        if k > 0 { FirstDigit(s, k); }
      }
    }
  }

  lemma FirstDigit(s: string, k: int)
    requires VersionEnds(s, k) && k > 0
    ensures s != "" && '0' <= s[0] <= '9'
  {
    assert s[..k][0] == s[0];
  }

  lemma VersionEndsTail(s: string, k: int)
    requires s != "" && '0' <= s[0] <= '9'
    ensures VersionEnds(s, k) <==> VersionEnds(s[1..], k - 1)
  {
    if 1 <= k <= |s| {
      assert s[..k] == [s[0]] + s[1..][..k - 1];
    }
  }
}
