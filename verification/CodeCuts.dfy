/** Every text has one cut into the tokens of its language, and the highlighter colours it by that cut. */
module CodeCuts {
  import opened Text
  import opened CodeLines
  import opened CodeHighlight
  import opened CodeTokens
  import opened CodeColours

  // ---- Any lexer ----

  ghost predicate StepsTo<S>(text: string, lexer: Lexer<S>, i: nat, st: S, kind: Kind, end: nat, next: S) {
    && i < |text|
    && lexer(text[i..], st).0.kind == kind && lexer(text[i..], st).1 == next
    && end == i + Upto(lexer(text[i..], st).0.length, text[i..])
  }

  /** The lexer goes over the text from `i` on, standing at these places in these states. */
  ghost predicate Goes<S>(text: string, lexer: Lexer<S>, i: nat, st: S, cuts: seq<nat>, kinds: seq<Kind>, states: seq<S>) {
    && |cuts| == |states| == |kinds| + 1 && cuts[0] == i && states[0] == st && cuts[|kinds|] == |text|
    && forall k :: 0 <= k < |kinds| ==> StepsTo(text, lexer, cuts[k], states[k], kinds[k], cuts[k + 1], states[k + 1])
  }

  lemma {:induction false} LexerGoes<S>(text: string, lexer: Lexer<S>, i: nat, st: S)
    returns (cuts: seq<nat>, kinds: seq<Kind>, states: seq<S>)
    requires i <= |text|
    ensures Goes(text, lexer, i, st, cuts, kinds, states)
    decreases |text| - i
  {
    if i == |text| {
      cuts, kinds, states := [i], [], [st];
    } else {
      var (piece, next) := lexer(text[i..], st);
      var end := i + Upto(piece.length, text[i..]);
      var c, k, s := LexerGoes(text, lexer, end, next);
      cuts, kinds, states := [i] + c, [piece.kind] + k, [st] + s;
      forall j | 0 <= j < |kinds|
        ensures StepsTo(text, lexer, cuts[j], states[j], kinds[j], cuts[j + 1], states[j + 1])
      {
        if j > 0 {
          assert StepsTo(text, lexer, c[j - 1], s[j - 1], k[j - 1], c[j - 1 + 1], s[j - 1 + 1]);
        }
      }
    }
  }

  lemma StepColours<S>(text: string, lexer: Lexer<S>, i: nat, st: S, kind: Kind, end: nat, next: S)
    requires StepsTo(text, lexer, i, st, kind, end, next)
    ensures i < end <= |text|
    ensures Coloured(text[i..], st, lexer) == Paint(kind, text[i..end]) + Coloured(text[end..], next, lexer)
  {
    CutPiece(text, i, lexer(text[i..], st).0.length);
  }

  lemma {:induction false} SuffixColours<S>(text: string, lexer: Lexer<S>, st: S, cuts: seq<nat>, kinds: seq<Kind>,
                                            states: seq<S>, k: nat)
    requires Goes(text, lexer, 0, st, cuts, kinds, states) && k <= |kinds|
    ensures cuts[k] <= |text| && |Coloured(text, st, lexer)| == |text|
    ensures Coloured(text, st, lexer)[cuts[k]..] == Coloured(text[cuts[k]..], states[k], lexer)
  {
    ColouredCoversText(text, st, lexer);
    if k == 0 {
      assert text[0..] == text;
    } else {
      SuffixColours(text, lexer, st, cuts, kinds, states, k - 1);
      var i, end := cuts[k - 1], cuts[k];
      assert StepsTo(text, lexer, cuts[k - 1], states[k - 1], kinds[k - 1], cuts[k - 1 + 1], states[k - 1 + 1]);
      StepColours(text, lexer, i, states[k - 1], kinds[k - 1], end, states[k]);
      var cells, rest := Coloured(text, st, lexer), Coloured(text[end..], states[k], lexer);
      SkipPaint(cells, i, end, Paint(kinds[k - 1], text[i..end]), rest);
    }
  }

  lemma SkipPaint(cells: seq<Cell>, i: nat, end: nat, paint: seq<Cell>, rest: seq<Cell>)
    requires i <= end <= |cells| && cells[i..] == paint + rest && |paint| == end - i
    ensures cells[end..] == rest
  {
    assert cells[end..] == cells[i..][end - i..];
  }

  /** The characters between two places have the colour of the token there. */
  lemma CutColours<S>(text: string, lexer: Lexer<S>, st: S, cuts: seq<nat>, kinds: seq<Kind>, states: seq<S>, k: nat, p: nat)
    requires Goes(text, lexer, 0, st, cuts, kinds, states) && k < |kinds| && cuts[k] <= p < cuts[k + 1]
    ensures p < |text| && |Coloured(text, st, lexer)| == |text|
    ensures Coloured(text, st, lexer)[p] == Cell(if text[p] == '\n' then Plain else kinds[k], text[p])
  {
    var i, end := cuts[k], cuts[k + 1];
    SuffixColours(text, lexer, st, cuts, kinds, states, k);
    assert StepsTo(text, lexer, cuts[k], states[k], kinds[k], cuts[k + 1], states[k + 1]);
    StepColours(text, lexer, i, states[k], kinds[k], end, states[k + 1]);
    var cells := Coloured(text, st, lexer);
    assert cells[p] == cells[i..][p - i];
    assert text[i..end][p - i] == text[p];
  }

  lemma StepsIff<S>(text: string, lexer: Lexer<S>, i: nat, st: S, kind: Kind, end: nat, next: S)
    requires i < |text|
    ensures StepsTo(text, lexer, i, st, kind, end, next)
            <==> i < end <= |text| && lexer(text[i..], st).0.kind == kind
                 && end - i == Upto(lexer(text[i..], st).0.length, text[i..]) && next == lexer(text[i..], st).1
  {
  }

  // ---- JSON ----

  ghost predicate JsonTokenAt(text: string, i: nat, end: nat, kind: Kind) {
    i < end <= |text| && JsonToken(text[i..], end - i, kind)
  }

  /** The text cut into tokens at these places. */
  ghost predicate JsonCut(text: string, cuts: seq<nat>, kinds: seq<Kind>) {
    && |cuts| == |kinds| + 1 && cuts[0] == 0 && cuts[|kinds|] == |text|
    && forall k :: 0 <= k < |kinds| ==> JsonTokenAt(text, cuts[k], cuts[k + 1], kinds[k])
  }

  lemma JsonPieceSteps(text: string, i: nat, end: nat, kind: Kind, s: string, piece: Piece)
    requires i < |text| && s == text[i..] && piece == JsonPieceOf(s)
    ensures StepsTo(text, JsonStep, i, (), kind, end, ()) <==> i < end <= |text| && piece.kind == kind && end - i == Upto(piece.length, s)
  {
    StepsIff(text, JsonStep, i, (), kind, end, ());
  }

  lemma JsonTokenSteps(text: string, i: nat, end: nat, kind: Kind, s: string, piece: Piece)
    requires i < end <= |text| && s == text[i..] && piece == JsonPieceOf(s)
    ensures JsonTokenAt(text, i, end, kind) <==> piece.kind == kind && end - i == Upto(piece.length, s)
  {
    JsonTokenIff(s, end - i, kind);
  }

  lemma JsonStepIs(text: string, i: nat, end: nat, kind: Kind)
    requires i < |text|
    ensures StepsTo(text, JsonStep, i, (), kind, end, ()) <==> JsonTokenAt(text, i, end, kind)
  {
    var s := text[i..];
    var piece := JsonPieceOf(s);
    JsonPieceSteps(text, i, end, kind, s, piece);
    if i < end <= |text| { JsonTokenSteps(text, i, end, kind, s, piece); }
  }

  lemma JsonCutExists(text: string) returns (cuts: seq<nat>, kinds: seq<Kind>)
    ensures JsonCut(text, cuts, kinds)
  {
    var states;
    cuts, kinds, states := LexerGoes(text, JsonStep, 0, ());
    forall k | 0 <= k < |kinds| ensures JsonTokenAt(text, cuts[k], cuts[k + 1], kinds[k]) {
      assert StepsTo(text, JsonStep, cuts[k], states[k], kinds[k], cuts[k + 1], states[k + 1]);
      JsonStepIs(text, cuts[k], cuts[k + 1], kinds[k]);
    }
  }

  /** However a text is cut into tokens, the highlighter gives each character the colour of its token. */
  lemma JsonColours(text: string, cuts: seq<nat>, kinds: seq<Kind>, k: nat, p: nat)
    requires JsonCut(text, cuts, kinds) && k < |kinds| && cuts[k] <= p < cuts[k + 1]
    ensures p < |text| == |Cells(text, Json)|
    ensures Cells(text, Json)[p] == Cell(if text[p] == '\n' then Plain else kinds[k], text[p])
  {
    var states := seq(|cuts|, _ => ());
    forall k | 0 <= k < |kinds|
      ensures StepsTo(text, JsonStep, cuts[k], states[k], kinds[k], cuts[k + 1], states[k + 1])
    {
      assert JsonTokenAt(text, cuts[k], cuts[k + 1], kinds[k]);
      JsonStepIs(text, cuts[k], cuts[k + 1], kinds[k]);
    }
    CutColours(text, JsonStep, (), cuts, kinds, states, k, p);
  }

  // ---- TOML ----

  ghost predicate TomlTokenAt(text: string, i: nat, st: TomlState, end: nat, kind: Kind, next: TomlState) {
    i < end <= |text| && TomlToken(text[i..], st.expectKey, end - i, kind) && next == TomlNext(text[i], st)
  }

  /** The text cut into tokens at these places, with the states before them: a key is expected first. */
  ghost predicate TomlCut(text: string, cuts: seq<nat>, kinds: seq<Kind>, states: seq<TomlState>) {
    && |cuts| == |states| == |kinds| + 1 && cuts[0] == 0 && cuts[|kinds|] == |text| && states[0] == TomlState(true, 0)
    && forall k :: 0 <= k < |kinds| ==> TomlTokenAt(text, cuts[k], states[k], cuts[k + 1], kinds[k], states[k + 1])
  }

  lemma TomlPieceSteps(text: string, i: nat, st: TomlState, end: nat, kind: Kind, next: TomlState, s: string)
    requires i < |text| && s == text[i..]
    ensures StepsTo(text, TomlStep, i, st, kind, end, next)
            <==> i < end <= |text| && TomlPieceIs(s, st, end - i, kind) && next == TomlStep(s, st).1
  {
    StepsIff(text, TomlStep, i, st, kind, end, next);
  }

  lemma TomlTokenSteps(text: string, i: nat, st: TomlState, end: nat, kind: Kind, next: TomlState, s: string)
    requires i < end <= |text| && s == text[i..]
    ensures TomlTokenAt(text, i, st, end, kind, next) <==> TomlPieceIs(s, st, end - i, kind) && next == TomlStep(s, st).1
  {
    TomlStateIs(s, st);
    TomlTokenIff(s, st, end - i, kind);
  }

  lemma TomlStepIs(text: string, i: nat, st: TomlState, end: nat, kind: Kind, next: TomlState)
    requires i < |text|
    ensures StepsTo(text, TomlStep, i, st, kind, end, next) <==> TomlTokenAt(text, i, st, end, kind, next)
  {
    TomlPieceSteps(text, i, st, end, kind, next, text[i..]);
    if i < end <= |text| { TomlTokenSteps(text, i, st, end, kind, next, text[i..]); }
  }

  lemma TomlCutExists(text: string) returns (cuts: seq<nat>, kinds: seq<Kind>, states: seq<TomlState>)
    ensures TomlCut(text, cuts, kinds, states)
  {
    cuts, kinds, states := LexerGoes(text, TomlStep, 0, TOML_START);
    forall k | 0 <= k < |kinds| ensures TomlTokenAt(text, cuts[k], states[k], cuts[k + 1], kinds[k], states[k + 1]) {
      assert StepsTo(text, TomlStep, cuts[k], states[k], kinds[k], cuts[k + 1], states[k + 1]);
      TomlStepIs(text, cuts[k], states[k], cuts[k + 1], kinds[k], states[k + 1]);
    }
  }

  /** However a text is cut into tokens, the highlighter gives each character the colour of its token. */
  lemma TomlColours(text: string, cuts: seq<nat>, kinds: seq<Kind>, states: seq<TomlState>, k: nat, p: nat)
    requires TomlCut(text, cuts, kinds, states) && k < |kinds| && cuts[k] <= p < cuts[k + 1]
    ensures p < |text| == |Cells(text, Toml)|
    ensures Cells(text, Toml)[p] == Cell(if text[p] == '\n' then Plain else kinds[k], text[p])
  {
    forall k | 0 <= k < |kinds|
      ensures StepsTo(text, TomlStep, cuts[k], states[k], kinds[k], cuts[k + 1], states[k + 1])
    {
      assert TomlTokenAt(text, cuts[k], states[k], cuts[k + 1], kinds[k], states[k + 1]);
      TomlStepIs(text, cuts[k], states[k], cuts[k + 1], kinds[k], states[k + 1]);
    }
    CutColours(text, TomlStep, TOML_START, cuts, kinds, states, k, p);
  }
}
