/** The names that put a model into a family, spelled out. */
module ModelFamilyNames {
  import opened Text
  import opened Decimal
  import opened ModelFamilies

  /** The word, some digits, and then a dash or the end. */
  ghost predicate Begins(s: string, word: string) {
    exists digits, rest :: AllDigits(digits) && (rest == "" || rest[0] == '-') && s == word + (digits + rest)
  }

  /** A name of the family, as its first part. */
  ghost predicate Named(f: Family, s: string) {
    match f
    case Gpt => Begins(s, "gpt") || Begins(s, "chatgpt")
    case OSeries => exists c :: '1' <= c <= '9' && Begins(s, ['o', c])
    case Codex => Begins(s, "codex")
    case Claude => Begins(s, "claude")
    case Gemini => Begins(s, "gemini")
    case DeepSeek => Begins(s, "deepseek")
    case Qwen => Begins(s, "qwen") || Begins(s, "qwq")
    case Glm => Begins(s, "glm")
    case Kimi => Begins(s, "kimi")
    case Grok => Begins(s, "grok")
    case Llama => Begins(s, "llama")
    case Mistral => Begins(s, "mistral")
    case Other => false
  }

  lemma {:induction false} SkippedDigits(s: string) returns (digits: string)
    ensures AllDigits(digits) && s == digits + SkipDigits(s)
  {
    if s != "" && '0' <= s[0] <= '9' {
      var d := SkippedDigits(s[1..]);
      digits := [s[0]] + d;
      assert s == [s[0]] + s[1..];
    } else {
      digits := "";
    }
  }

  lemma {:induction false} DigitsSkipped(digits: string, rest: string)
    requires AllDigits(digits) && (rest != "" ==> !('0' <= rest[0] <= '9'))
    ensures SkipDigits(digits + rest) == rest
  {
    if digits == "" {
      assert digits + rest == rest;
    } else {
      assert (digits + rest)[1..] == digits[1..] + rest;
      DigitsSkipped(digits[1..], rest);
    }
  }

  lemma BeginsIff(s: string, word: string)
    ensures Begins(s, word) <==> word <= s && Versioned(s[|word|..])
  {
    if word <= s && Versioned(s[|word|..]) {
      var digits := SkippedDigits(s[|word|..]);
      assert s == word + (digits + SkipDigits(s[|word|..]));
    }
    if digits, rest :| AllDigits(digits) && (rest == "" || rest[0] == '-') && s == word + (digits + rest) {
      DigitsSkipped(digits, rest);
      assert s[|word|..] == digits + rest;
    }
  }

  lemma WordTests(s: string, word: string)
    ensures Tests(Word(word), s) <==> Begins(s, word)
  {
    BeginsIff(s, word);
  }

  lemma DigitTests(s: string)
    ensures Tests(WordAndDigit("o"), s) <==> exists c :: '1' <= c <= '9' && Begins(s, ['o', c])
  {
    if |s| >= 2 && s[0] == 'o' {
      assert "o" <= s;
      BeginsIff(s, ['o', s[1]]);
      assert ['o', s[1]] <= s;
    }
    if c :| '1' <= c <= '9' && Begins(s, ['o', c]) {
      BeginsIff(s, ['o', c]);
      assert "o" <= s && s[1] == c;
    }
  }

  lemma OneName(f: Family, s: string, p: Pattern)
    requires Names(f) == [p]
    ensures Matches(f, s) <==> Tests(p, s)
  {
    if Tests(p, s) { assert Tests(Names(f)[0], s); }
  }

  lemma TwoNames(f: Family, s: string, p: Pattern, q: Pattern)
    requires Names(f) == [p, q]
    ensures Matches(f, s) <==> Tests(p, s) || Tests(q, s)
  {
    if Tests(p, s) { assert Tests(Names(f)[0], s); }
    if Tests(q, s) { assert Tests(Names(f)[1], s); }
  }

  lemma OneWord(f: Family, s: string, word: string)
    requires Names(f) == [Word(word)]
    ensures Matches(f, s) <==> Begins(s, word)
  {
    OneName(f, s, Word(word));
    WordTests(s, word);
  }

  lemma TwoWords(f: Family, s: string, word: string, other: string)
    requires Names(f) == [Word(word), Word(other)]
    ensures Matches(f, s) <==> Begins(s, word) || Begins(s, other)
  {
    TwoNames(f, s, Word(word), Word(other));
    WordTests(s, word);
    WordTests(s, other);
  }

  lemma MatchesNamed(f: Family, s: string)
    requires f != Other
    ensures Matches(f, s) <==> Named(f, s)
  {
    match f
    case Gpt => TwoWords(f, s, "gpt", "chatgpt");
    case OSeries => OneName(f, s, WordAndDigit("o")); DigitTests(s);
    case Codex => OneWord(f, s, "codex");
    case Claude => OneWord(f, s, "claude");
    case Gemini => OneWord(f, s, "gemini");
    case DeepSeek => OneWord(f, s, "deepseek");
    case Qwen => TwoWords(f, s, "qwen", "qwq");
    case Glm => OneWord(f, s, "glm");
    case Kimi => OneWord(f, s, "kimi");
    case Grok => OneWord(f, s, "grok");
    case Llama => OneWord(f, s, "llama");
    case Mistral => OneWord(f, s, "mistral");
  }

  /** The id trimmed, in lower case, with a dash for each point, underscore, slash and colon. */
  ghost predicate Plain(model: string, s: string) {
    var t := Trim(JavaScript, model);
    && |s| == |t|
    && forall i :: 0 <= i < |s| ==>
         s[i] == if t[i] == '.' || t[i] == '_' || t[i] == '/' || t[i] == ':' then '-'
                 else if 'A' <= t[i] <= 'Z' then (t[i] as int + 32) as char
                 else t[i]
  }

  /** A model is in a family if and only if its plain id begins with a name of it. */
  lemma FamilyIffNamed(model: string, s: string, f: Family)
    requires Plain(model, s) && f != Other
    ensures FamilyOf(model) == f <==> Named(f, s)
  {
    NormalizedIsPlain(model, s);
    FamilyIffMatches(model, f);
    MatchesNamed(f, s);
  }

  lemma NormalizedIsPlain(model: string, s: string)
    requires Plain(model, s)
    ensures s == Normalized(model)
  {
    var t := Trim(JavaScript, model);
    forall i | 0 <= i < |s| ensures s[i] == Normalized(model)[i] {
      assert Lower(t)[i] == LowerChar(t[i]);
    }
  }

  lemma OtherIsNoName(model: string, s: string)
    requires Plain(model, s)
    ensures FamilyOf(model) == Other <==> forall f :: f != Other ==> !Named(f, s)
  {
    var family := FamilyOf(model);
    if family != Other { FamilyIffNamed(model, s, family); }
    forall f | f != Other ensures Named(f, s) ==> family == f { FamilyIffNamed(model, s, f); }
  }
}
