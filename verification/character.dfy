/**
 * `CharacterManager` of app/character.py and character.py: load-or-create of
 * a character's state and the per-message emotion step, which asks a model
 * for new values and falls back to a small random drift when the answer is
 * unusable. The model's text, the JSON parser's verdict and the random
 * deltas are parameters.
 */
module CharacterManager {
  import opened Wrappers
  import opened Text
  import opened Emotions
  import opened StateStore

  /** What `json.loads` (or `eval`) makes of a text. */
  datatype ParseOutcome =
    | Object(data: map<string, real>)  // a dictionary of field values
    | NotObject                        // a list, number, string or null: `.get` raises AttributeError
    | Malformed                        // the parser itself raised

  datatype Path = Parsed | Fallback

  /** The state an emotion step returns and the states it saved, in order. */
  datatype Stepped = Stepped(state: CharacterState, path: Path, saved: seq<CharacterState>)

  /** The result of `get_character_state`: the state, its id and what was saved on the way. */
  datatype Acquired = Acquired(state: CharacterState, id: Option<CharId>, saved: seq<CharacterState>)

  const JsonFence: string := "```json"
  const Fence: string := "```"

  /**
   * `get_character_state`: the stored state when there is one; otherwise a
   * default state, saved before it is returned with the id the save gave it.
   */
  function GetCharacterState(loaded: Loaded, savedId: CharId): (r: Acquired)
    ensures loaded.state.Some? ==> r.state == loaded.state.value && r.id == loaded.id && r.saved == []
    ensures loaded.state.None? ==> r.state == Default() && r.id == Some(savedId) && r.saved == [r.state]
  {
    match loaded.state
    case Some(s) => Acquired(s, loaded.id, [])
    case None => Acquired(Default(), Some(savedId), [Default()])
  }

  /**
   * Against a store: after the call (and its save) the store holds exactly the
   * returned state under the returned id, nothing else changed, and a second
   * call returns the same state without saving.
   */
  lemma GetCharacterStateAgainstStore(st: Store, who: Identity)
    ensures var r := GetCharacterState(Load(st, who), st.nextId);
            var after := SaveAll(st, who, r.saved);
            && Load(after, who) == Loaded(Some(r.state), r.id)
            && (who in st.records ==> after == st)
            && (forall other :: other != who ==> Load(after, other) == Load(st, other))
            && GetCharacterState(Load(after, who), after.nextId) == Acquired(r.state, r.id, [])
  {
    var r := GetCharacterState(Load(st, who), st.nextId);
    if who !in st.records {
      assert r.saved[1..] == [];
      assert SaveAll(st, who, r.saved) == Save(st, who, Default()).0;
    }
  }

  /** app/character.py: strip, drop one leading "```json" and one trailing "```", strip again. */
  function CleanResponse(raw: string): (r: string)
    ensures Strip(r) == r
    ensures !IsPrefix(JsonFence, Strip(raw)) && !IsSuffix(Fence, Strip(raw)) ==> r == Strip(raw)
  {
    var t := RemoveSuffix(RemovePrefix(Strip(raw), JsonFence), Fence);
    StripIdempotent(t);
    StripIdempotent(raw);
    Strip(t)
  }

  /**
   * character.py: strip, then slice off 7 characters after a leading "```json"
   * and 3 before a trailing "```". The slices remove exactly the fences that
   * `removeprefix`/`removesuffix` remove; the result is not stripped again, but
   * stripping it gives exactly the text app/character.py parses.
   */
  function CleanResponseSliced(raw: string): (r: string)
    ensures r == RemoveSuffix(RemovePrefix(Strip(raw), JsonFence), Fence)
    ensures Strip(r) == CleanResponse(raw)
  {
    var t := Strip(raw);
    var t := if IsPrefix(JsonFence, t) then t[7..] else t;
    if IsSuffix(Fence, t) then t[..|t| - 3] else t
  }

  lemma FenceExampleStrips()
    ensures Strip("```json\n{\"valence\":0.8}\n```") == "```json\n{\"valence\":0.8}\n```"
  {
    StripIdempotentOnTrimmed("```json\n{\"valence\":0.8}\n```");
  }

  lemma FenceExampleRemovesFences()
    ensures RemoveSuffix(RemovePrefix("```json\n{\"valence\":0.8}\n```", JsonFence), Fence) == "\n{\"valence\":0.8}\n"
  {
    var raw := "```json\n{\"valence\":0.8}\n```";
    assert raw[..7] == JsonFence;
    var body := "\n{\"valence\":0.8}\n```";
    assert raw[7..] == body;
    assert body[|body| - 3..] == Fence;
    assert body[..|body| - 3] == "\n{\"valence\":0.8}\n";
  }

  lemma FenceExampleStripsInner()
    ensures Strip("\n{\"valence\":0.8}\n") == "{\"valence\":0.8}"
  {
    var inner := "\n{\"valence\":0.8}\n";
    assert IsSpace(inner[0]);
    assert inner[1..] == "{\"valence\":0.8}\n";
    TrimLeftOfTrimmed(inner[1..], IsSpace);
    var almost := "{\"valence\":0.8}\n";
    assert IsSpace(almost[|almost| - 1]);
    assert almost[..|almost| - 1] == "{\"valence\":0.8}";
    TrimRightOfTrimmed(almost[..|almost| - 1], IsSpace);
  }

  /** The fenced answer "```json\n{"valence":0.8}\n```" cleans to the bare object. */
  lemma CleanResponseFenceExample(raw: string, text: string)
    requires raw == "```json\n{\"valence\":0.8}\n```"
    requires text == "{\"valence\":0.8}"
    ensures CleanResponse(raw) == text
  {
    FenceExampleStrips();
    FenceExampleRemovesFences();
    FenceExampleStripsInner();
  }

  /** The fence markers around a text come off again. */
  lemma RemoveFences(body: string)
    ensures RemoveSuffix(RemovePrefix(JsonFence + body + Fence, JsonFence), Fence) == body
  {
    var x := JsonFence + body + Fence;
    assert x[..|JsonFence|] == JsonFence;
    assert x[|JsonFence|..] == body + Fence;
    assert RemovePrefix(x, JsonFence) == body + Fence;
    assert (body + Fence)[|body + Fence| - |Fence|..] == Fence;
    assert (body + Fence)[..|body|] == body;
  }

  /** A fenced text has nothing to strip. */
  lemma StripFencedIsFenced(body: string)
    ensures Strip(JsonFence + body + Fence) == JsonFence + body + Fence
  {
    var x := JsonFence + body + Fence;
    assert x[0] == '`' && x[|x| - 1] == '`';
    StripIdempotentOnTrimmed(x);
  }

  /** A fenced text with blank surroundings strips to the fenced text. */
  lemma StripAroundFence(w1: string, body: string, w2: string)
    requires IsBlank(w1) && IsBlank(w2)
    ensures Strip(w1 + JsonFence + body + Fence + w2) == JsonFence + body + Fence
  {
    var x := JsonFence + body + Fence;
    BlankIffAllSpace(w1);
    BlankIffAllSpace(w2);
    assert x[0] == '`' && x[|x| - 1] == '`';
    assert w1 + JsonFence + body + Fence + w2 == w1 + x + w2;
    StripSurrounded(w1, x, w2);
  }

  /**
   * Any answer wrapped in a ```json fence, with whitespace around the fence,
   * cleans to the stripped text inside the fence.
   */
  lemma CleanResponseUnfences(w1: string, body: string, w2: string)
    requires IsBlank(w1) && IsBlank(w2)
    ensures CleanResponse(w1 + JsonFence + body + Fence + w2) == Strip(body)
  {
    StripAroundFence(w1, body, w2);
    RemoveFences(body);
  }

  /** character.py takes the fences off a fenced answer and leaves the inside as it is. */
  lemma SlicedUnfences(body: string)
    ensures CleanResponseSliced(JsonFence + body + Fence) == body
  {
    StripFencedIsFenced(body);
    RemoveFences(body);
  }

  /** One field after the fallback: drifted and clamped if selected, otherwise as it was. */
  function Nudge(s: CharacterState, delta: Field -> real, fields: set<Field>, f: Field): real {
    if f in fields then Clamp(Get(s, f) + delta(f)) else Get(s, f)
  }

  /**
   * The fallback: each selected field gets `max(0, min(1, v + delta))`, where
   * `delta` stands for the `random.uniform(-0.1, 0.1)` draw for that field;
   * the other fields are untouched.
   */
  function Perturb(s: CharacterState, delta: Field -> real, fields: set<Field>): (r: CharacterState)
    ensures forall f :: f in fields ==> Get(r, f) == Clamp(Get(s, f) + delta(f))
    ensures forall f :: f in fields ==> 0.0 <= Get(r, f) <= 1.0
    ensures forall f :: f !in fields ==> Get(r, f) == Get(s, f)
  {
    FromFields(f => Nudge(s, delta, fields, f))
  }

  /** A drift of at most 0.1 moves an in-range field by at most 0.1, and keeps it in range. */
  lemma PerturbStaysClose(s: CharacterState, delta: Field -> real, fields: set<Field>, f: Field)
    requires f in fields
    requires -0.1 <= delta(f) <= 0.1
    requires 0.0 <= Get(s, f) <= 1.0
    ensures -0.1 <= Get(Perturb(s, delta, fields), f) - Get(s, f) <= 0.1
  {
  }

  /** The two fields the fallback of the character managers touches. */
  const DriftFields: set<Field> := {Arousal, Valence}

  /** The success path: the parsed fields applied and the result saved. */
  function Applied(s: CharacterState, data: map<string, real>): Stepped {
    Stepped(Update(s, data), Parsed, [Update(s, data)])
  }

  /** The fallback path: arousal and valence drifted and the result saved. */
  function Drifted(s: CharacterState, delta: Field -> real): Stepped {
    Stepped(Perturb(s, delta, DriftFields), Fallback, [Perturb(s, delta, DriftFields)])
  }

  /**
   * The decision both emotion steps share: a usable text that parses to a
   * dictionary is applied, anything else drifts; either way the result is saved.
   */
  function StepOn(s: CharacterState, text: string, usable: bool, parse: string -> ParseOutcome, delta: Field -> real): (r: Stepped)
    ensures r.saved == [r.state]
    ensures r.path == Parsed <==> usable && parse(text).Object?
    ensures !usable ==> r.path == Fallback
    ensures r.path == Parsed ==> r.state == Update(s, parse(text).data)
    ensures r.path == Fallback ==> r.state == Perturb(s, delta, DriftFields)
  {
    if !usable then Drifted(s, delta)
    else match parse(text)
      case Object(data) => Applied(s, data)
      case _ => Drifted(s, delta)
  }

  /** app/character.py `simulate_emotions`, given the model's text, the parser and the deltas. */
  function SimulateEmotions(s: CharacterState, reply: string, parse: string -> ParseOutcome, delta: Field -> real): (r: Stepped)
    ensures r.saved == [r.state]
    ensures r.path == Parsed <==> CleanResponse(reply) != "" && parse(CleanResponse(reply)).Object?
    ensures r.path == Parsed ==> r.state == Update(s, parse(CleanResponse(reply)).data)
    ensures r.path == Fallback ==> r.state == Perturb(s, delta, DriftFields)
  {
    var text := CleanResponse(reply);
    StepOn(s, text, text != "", parse, delta)
  }

  /**
   * `r` is `s` with at most arousal and valence changed, both in [0, 1] and,
   * where they started in range, within 0.1 of where they started.
   */
  predicate DriftedFrom(r: CharacterState, s: CharacterState) {
    && (forall f :: f != Arousal && f != Valence ==> Get(r, f) == Get(s, f))
    && 0.0 <= r.arousal <= 1.0 && 0.0 <= r.valence <= 1.0
    && (0.0 <= s.arousal <= 1.0 ==> -0.1 <= r.arousal - s.arousal <= 0.1)
    && (0.0 <= s.valence <= 1.0 ==> -0.1 <= r.valence - s.valence <= 0.1)
  }

  /**
   * The drift touches only arousal and valence; both end in [0, 1] and, starting
   * in range with draws in [-0.1, 0.1], move by at most 0.1.
   */
  lemma DriftMovesArousalAndValence(s: CharacterState, delta: Field -> real)
    requires -0.1 <= delta(Arousal) <= 0.1 && -0.1 <= delta(Valence) <= 0.1
    ensures DriftedFrom(Perturb(s, delta, DriftFields), s)
  {
    var r := Perturb(s, delta, DriftFields);
    assert Arousal in DriftFields && Valence in DriftFields;
    assert Get(r, Arousal) == r.arousal && Get(r, Valence) == r.valence;
    assert Get(s, Arousal) == s.arousal && Get(s, Valence) == s.valence;
    if 0.0 <= s.arousal <= 1.0 {
      PerturbStaysClose(s, delta, DriftFields, Arousal);
    }
    if 0.0 <= s.valence <= 1.0 {
      PerturbStaysClose(s, delta, DriftFields, Valence);
    }
  }

  /** On the fallback path of the emotion step the state is the drift of the old one. */
  lemma FallbackDriftsArousalAndValence(s: CharacterState, reply: string, parse: string -> ParseOutcome, delta: Field -> real)
    requires SimulateEmotions(s, reply, parse, delta).path == Fallback
    requires -0.1 <= delta(Arousal) <= 0.1 && -0.1 <= delta(Valence) <= 0.1
    ensures DriftedFrom(SimulateEmotions(s, reply, parse, delta).state, s)
  {
    DriftMovesArousalAndValence(s, delta);
  }

  /** A blank answer takes the fallback path. */
  lemma BlankAnswerFallsBack(s: CharacterState, reply: string, parse: string -> ParseOutcome, delta: Field -> real)
    requires IsBlank(reply)
    ensures SimulateEmotions(s, reply, parse, delta).path == Fallback
  {
    assert CleanResponse(reply) == [];
  }

  /** An answer that is only a fence around whitespace takes the fallback path as well. */
  lemma FenceOnlyAnswerFallsBack(s: CharacterState, w1: string, body: string, w2: string,
                                 parse: string -> ParseOutcome, delta: Field -> real)
    requires IsBlank(w1) && IsBlank(body) && IsBlank(w2)
    ensures SimulateEmotions(s, w1 + JsonFence + body + Fence + w2, parse, delta).path == Fallback
  {
    CleanResponseUnfences(w1, body, w2);
  }

  /** An answer that parses to `{}` is a success that leaves the state unchanged. */
  lemma EmptyObjectKeepsState(s: CharacterState, reply: string, parse: string -> ParseOutcome, delta: Field -> real)
    requires CleanResponse(reply) != ""
    requires parse(CleanResponse(reply)) == Object(map[])
    ensures SimulateEmotions(s, reply, parse, delta).path == Parsed
    ensures SimulateEmotions(s, reply, parse, delta).state == s
  {
    UpdateEmpty(s);
  }

  /** A list, number or string where a dictionary was expected takes the fallback path. */
  lemma NonObjectFallsBack(s: CharacterState, reply: string, parse: string -> ParseOutcome, delta: Field -> real)
    requires parse(CleanResponse(reply)) == NotObject
    ensures SimulateEmotions(s, reply, parse, delta).path == Fallback
  {
  }

  /** Applying `{valence: 0.8}` sets valence and nothing else. */
  lemma ValenceUpdateExample(s: CharacterState, data: map<string, real>)
    requires data == map["valence" := 0.8]
    ensures Update(s, data).valence == 0.8
    ensures forall f :: f != Valence ==> Get(Update(s, data), f) == Get(s, f)
  {
    assert Get(Update(s, data), Valence) == 0.8;
    forall f | f != Valence ensures Get(Update(s, data), f) == Get(s, f) {
      assert f.Key() != "valence";
    }
  }

  /**
   * An answer whose cleaned text, such as the fenced one of
   * `CleanResponseFenceExample`, parses to `{"valence": 0.8}` updates valence
   * to 0.8 and nothing else.
   */
  lemma ParsedValenceExample(s: CharacterState, reply: string, parse: string -> ParseOutcome, delta: Field -> real,
                             data: map<string, real>)
    requires CleanResponse(reply) != ""
    requires parse(CleanResponse(reply)) == Object(data)
    requires data == map["valence" := 0.8]
    ensures var r := SimulateEmotions(s, reply, parse, delta);
            && r.path == Parsed
            && r.state.valence == 0.8
            && forall f :: f != Valence ==> Get(r.state, f) == Get(s, f)
  {
    ParsedAnswerUpdates(s, reply, CleanResponse(reply), data, parse, delta);
    ValenceUpdateExample(s, data);
  }

  lemma ParsedAnswerUpdates(s: CharacterState, reply: string, text: string, data: map<string, real>,
                            parse: string -> ParseOutcome, delta: Field -> real)
    requires CleanResponse(reply) == text && text != ""
    requires parse(text) == Object(data)
    ensures SimulateEmotions(s, reply, parse, delta) == Stepped(Update(s, data), Parsed, [Update(s, data)])
  {
  }

  /** character.py `simulate_emotions`: the sliced cleaning and a blank check before parsing. */
  function SimulateEmotionsSliced(s: CharacterState, reply: string, parse: string -> ParseOutcome, delta: Field -> real): (r: Stepped)
    ensures r.saved == [r.state]
    ensures r.path == Parsed <==> !IsBlank(CleanResponseSliced(reply)) && parse(CleanResponseSliced(reply)).Object?
    ensures r.path == Parsed ==> r.state == Update(s, parse(CleanResponseSliced(reply)).data)
    ensures r.path == Fallback ==> r.state == Perturb(s, delta, DriftFields)
  {
    var text := CleanResponseSliced(reply);
    StepOn(s, text, !IsBlank(text), parse, delta)
  }

  /**
   * A parser that ignores every surrounding `str.isspace` character. This is
   * more than `json.loads` does: it skips only space, tab, newline and
   * carriage return (see `IgnoresJsonSpace`).
   */
  ghost predicate IgnoresSurroundingSpace(parse: string -> ParseOutcome) {
    forall t {:trigger Strip(t)} :: parse(t) == parse(Strip(t))
  }

  /** The shared decision depends only on usability and on what the text parses to. */
  lemma StepOnAgrees(s: CharacterState, t1: string, u1: bool, t2: string, u2: bool,
                     parse: string -> ParseOutcome, delta: Field -> real)
    requires u1 == u2 && parse(t1) == parse(t2)
    ensures StepOn(s, t1, u1, parse, delta) == StepOn(s, t2, u2, parse, delta)
  {
  }

  /**
   * With a parser that ignores every kind of surrounding whitespace, the two
   * emotion steps behave identically.
   */
  lemma SimulateVariantsAgree(s: CharacterState, reply: string, parse: string -> ParseOutcome, delta: Field -> real)
    requires IgnoresSurroundingSpace(parse)
    ensures SimulateEmotionsSliced(s, reply, parse, delta) == SimulateEmotions(s, reply, parse, delta)
  {
    var text := CleanResponseSliced(reply);
    var clean := CleanResponse(reply);
    assert Strip(text) == clean;
    assert parse(text) == parse(clean);
    StepOnAgrees(s, text, !IsBlank(text), clean, clean != "", parse, delta);
  }

  /** The whitespace the JSON grammar allows around a value: space, tab, newline, carriage return. */
  predicate IsJsonSpace(c: char) {
    c == ' ' || c == '\t' || c == '\n' || c == '\r'
  }

  function JsonTrim(t: string): string {
    Trim(t, IsJsonSpace)
  }

  /** A parser that, like `json.loads`, ignores JSON whitespace around the value. */
  ghost predicate IgnoresJsonSpace(parse: string -> ParseOutcome) {
    forall t {:trigger JsonTrim(t)} :: parse(t) == parse(JsonTrim(t))
  }

  /**
   * With a `json.loads`-like parser the two emotion steps agree whenever the
   * whitespace around character.py's cleaned text is JSON whitespace.
   */
  lemma SimulateVariantsAgreeOnJsonSpace(s: CharacterState, reply: string, parse: string -> ParseOutcome, delta: Field -> real)
    requires IgnoresJsonSpace(parse)
    requires JsonTrim(CleanResponseSliced(reply)) == Strip(CleanResponseSliced(reply))
    ensures SimulateEmotionsSliced(s, reply, parse, delta) == SimulateEmotions(s, reply, parse, delta)
  {
    var text := CleanResponseSliced(reply);
    var clean := CleanResponse(reply);
    assert Strip(text) == clean;
    assert parse(text) == parse(JsonTrim(text));
    StepOnAgrees(s, text, !IsBlank(text), clean, clean != "", parse, delta);
  }

  /**
   * The two versions differ when the fence holds whitespace that Python's
   * `strip` removes but the JSON grammar does not allow, such as a form feed:
   * app/character.py strips it away and parses the object, character.py hands
   * it to a parser that, like `json.loads`, rejects it, and drifts instead.
   */
  lemma VariantsDivergeOnForeignSpace(s: CharacterState, c: char, v: string, parse: string -> ParseOutcome, delta: Field -> real)
    requires IsSpace(c) && !IsJsonSpace(c)
    requires v != [] && !IsSpace(v[0]) && !IsSpace(v[|v| - 1])
    requires parse(v).Object? && !parse([c] + v).Object?
    ensures SimulateEmotions(s, JsonFence + ([c] + v) + Fence, parse, delta).path == Parsed
    ensures SimulateEmotionsSliced(s, JsonFence + ([c] + v) + Fence, parse, delta).path == Fallback
  {
    AppParsesPastLeadingSpace(s, c, v, parse, delta);
    LegacyDriftsOnForeignSpace(s, c, v, parse, delta);
  }

  /** The form feed is such a character. */
  lemma FormFeedIsForeignSpace()
    ensures IsSpace('\U{C}') && !IsJsonSpace('\U{C}')
  {
  }

  /** app/character.py strips any whitespace inside the fence before parsing. */
  lemma AppParsesPastLeadingSpace(s: CharacterState, c: char, v: string, parse: string -> ParseOutcome, delta: Field -> real)
    requires IsSpace(c)
    requires v != [] && !IsSpace(v[0]) && !IsSpace(v[|v| - 1])
    requires parse(v).Object?
    ensures SimulateEmotions(s, JsonFence + ([c] + v) + Fence, parse, delta).path == Parsed
  {
    var body := [c] + v;
    FencedCleansToStrip(body);
    LeadingSpaceStrips(c, v);
    AppPathOnCleaned(s, JsonFence + body + Fence, v, parse, delta);
  }

  /** character.py parses the inside of the fence as it is, leading whitespace included. */
  lemma LegacyDriftsOnForeignSpace(s: CharacterState, c: char, v: string, parse: string -> ParseOutcome, delta: Field -> real)
    requires !parse([c] + v).Object?
    ensures SimulateEmotionsSliced(s, JsonFence + ([c] + v) + Fence, parse, delta).path == Fallback
  {
    var body := [c] + v;
    SlicedUnfences(body);
    LegacyPathOnCleaned(s, JsonFence + body + Fence, body, parse, delta);
  }

  lemma FencedCleansToStrip(body: string)
    ensures CleanResponse(JsonFence + body + Fence) == Strip(body)
  {
    assert JsonFence + body + Fence == "" + JsonFence + body + Fence + "";
    CleanResponseUnfences("", body, "");
  }

  lemma LeadingSpaceStrips(c: char, v: string)
    requires IsSpace(c)
    requires v != [] && !IsSpace(v[0]) && !IsSpace(v[|v| - 1])
    ensures Strip([c] + v) == v
  {
    assert [c] + v == [c] + v + "";
    StripSurrounded([c], v, "");
  }

  /** app/character.py's path is decided by what the parser makes of its cleaned text. */
  lemma AppPathOnCleaned(s: CharacterState, reply: string, text: string, parse: string -> ParseOutcome, delta: Field -> real)
    requires CleanResponse(reply) == text
    ensures SimulateEmotions(s, reply, parse, delta).path == Parsed <==> text != "" && parse(text).Object?
  {
  }

  /** character.py's path is decided by what the parser makes of its cleaned text. */
  lemma LegacyPathOnCleaned(s: CharacterState, reply: string, text: string, parse: string -> ParseOutcome, delta: Field -> real)
    requires CleanResponseSliced(reply) == text
    ensures SimulateEmotionsSliced(s, reply, parse, delta).path == Parsed <==> !IsBlank(text) && parse(text).Object?
  {
  }
}
