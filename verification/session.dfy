/**
 * The single-script variant of the chatbot (test.py): a character state
 * that also carries a long-term memory of answered questions, an emotion
 * step that evaluates the model's reply directly and drifts all eleven
 * fields when that fails, and a per-character chat history kept in the
 * session, with duplicate suppression and canned greetings.
 */
module Session {
  import opened Wrappers
  import opened Text
  import opened Emotions
  import opened CharacterManager
  import PdfProcessor

  /** test.py's `CharacterState`: the eleven fields plus `long_term_memory`. */
  datatype MemoryState = MemoryState(emotions: CharacterState, memory: map<string, string>)

  /** All eleven fields: the fallback of test.py drifts every one of them. */
  const AllFieldSet: set<Field> := {
    Arousal, Valence, Dominance,
    Sadness, Anger, Joy, Fear,
    SelectionThreshold, ResolutionLevel, GoalDirectedness, SecuringRate}

  /**
   * `eval` produced something without a `.get` method: the `AttributeError`
   * is not among the caught exceptions and escapes the emotion step.
   */
  datatype Error = NoGetMethod

  /**
   * test.py `simulate_emotions`, given the outcome of evaluating the model's
   * reply and the random draws. A dictionary updates the named fields; a reply
   * that does not evaluate drifts all eleven fields; any other value raises.
   */
  function SimulateEmotionsScript(s: MemoryState, outcome: ParseOutcome, delta: Field -> real): (r: Result<MemoryState, Error>)
    ensures r.Success? <==> !outcome.NotObject?
    ensures r.Success? ==> r.value.memory == s.memory
    ensures outcome.Object? ==> r.value.emotions == Update(s.emotions, outcome.data)
    ensures outcome.Malformed? ==> r.value.emotions == Perturb(s.emotions, delta, AllFieldSet)
    ensures outcome.Malformed? ==> forall f: Field :: Get(r.value.emotions, f) == Clamp(Get(s.emotions, f) + delta(f))
    ensures outcome.Malformed? ==> InRange(r.value.emotions)
  {
    match outcome
    case Object(data) => Success(s.(emotions := Update(s.emotions, data)))
    case Malformed =>
      var e := Perturb(s.emotions, delta, AllFieldSet);
      assert forall f: Field :: f in AllFieldSet;
      Success(s.(emotions := e))
    case NotObject => Failure(NoGetMethod)
  }

  /**
   * On the fallback path every field ends in [0, 1] and, when it started in
   * range and its draw lies in [-0.1, 0.1], has moved by at most 0.1.
   */
  lemma ScriptFallbackStaysClose(s: MemoryState, delta: Field -> real)
    requires forall f: Field :: -0.1 <= delta(f) <= 0.1
    ensures var r := SimulateEmotionsScript(s, Malformed, delta);
            && r.Success?
            && InRange(r.value.emotions)
            && forall f: Field :: 0.0 <= Get(s.emotions, f) <= 1.0 ==>
                 -0.1 <= Get(r.value.emotions, f) - Get(s.emotions, f) <= 0.1
  {
    forall f: Field | 0.0 <= Get(s.emotions, f) <= 1.0
      ensures -0.1 <= Get(Perturb(s.emotions, delta, AllFieldSet), f) - Get(s.emotions, f) <= 0.1
    {
      assert f in AllFieldSet;
      PerturbStaysClose(s.emotions, delta, AllFieldSet, f);
    }
  }

  /** A state in range stays in range whichever way the step goes, short of a dictionary. */
  lemma ScriptStepKeepsRange(s: MemoryState, outcome: ParseOutcome, delta: Field -> real)
    requires InRange(s.emotions)
    requires outcome.Object? ==> forall f: Field :: f.Key() in outcome.data ==> 0.0 <= outcome.data[f.Key()] <= 1.0
    requires SimulateEmotionsScript(s, outcome, delta).Success?
    ensures InRange(SimulateEmotionsScript(s, outcome, delta).value.emotions)
  {
    if outcome.Object? {
      var r := SimulateEmotionsScript(s, outcome, delta).value.emotions;
      forall f: Field
        ensures 0.0 <= Get(r, f) <= 1.0
      {
        if f.Key() in outcome.data {
          assert Get(r, f) == outcome.data[f.Key()];
        } else {
          assert Get(r, f) == Get(s.emotions, f);
        }
      }
    }
  }

  // ---------------------------------------------------------------------
  // Chat history and `user_input`
  // ---------------------------------------------------------------------

  /** One chat-history entry: `{"role": ..., "message": ...}`. */
  datatype Entry = Entry(role: string, message: string)

  const UserRole: string := "User"

  /** What `user_input` hands back: `None`, the reply text, or an escaped exception. */
  datatype Reply = Skipped | Answered(text: string) | Raised

  /** The reply, the character's state and the character's history after one call. */
  datatype Exchange = Exchange(reply: Reply, state: MemoryState, history: seq<Entry>)

  /** The user has already sent exactly this message to this character. */
  predicate IsDuplicate(history: seq<Entry>, question: string) {
    exists k :: 0 <= k < |history| && history[k] == Entry(UserRole, question)
  }

  const Greetings: seq<string> := ["hi", "hello", "hey", "greetings"]

  /** The whole message, lower-cased, is one of the greeting words. */
  predicate IsGreeting(question: string) {
    Lower(question) in Greetings
  }

  function GreetingReply(name: string): string {
    "Hello! I'm " + name + ". How can I assist you today?"
  }

  /** The user's message followed by the character's reply. */
  function Pair(question: string, name: string, reply: string): (p: seq<Entry>)
    ensures |p| == 2 && p[0] == Entry(UserRole, question) && p[1].role == name && p[1].message == reply
  {
    [Entry(UserRole, question), Entry(name, reply)]
  }

  /**
   * test.py `user_input`. `answer` is the retrieval chain's `output_text`,
   * `outcome` and `delta` feed the emotion step. A greeting is recorded before
   * the emotion step, so its entries survive a failing step; the retrieval
   * path runs the step first and records nothing if it fails.
   */
  function UserInput(question: string, name: string, s: MemoryState, history: seq<Entry>,
                     answer: string, outcome: ParseOutcome, delta: Field -> real): (r: Exchange)
    ensures IsDuplicate(history, question) ==> r == Exchange(Skipped, s, history)
    ensures r.reply.Answered? <==> !IsDuplicate(history, question) && !outcome.NotObject?
    ensures r.reply.Answered? ==> r.history == history + Pair(question, name, r.reply.text)
    ensures r.reply.Raised? ==> r.state == s
    ensures r.reply.Answered? ==> r.state.emotions == SimulateEmotionsScript(s, outcome, delta).value.emotions
    ensures !IsDuplicate(history, question) && IsGreeting(question) ==>
              r.history == history + Pair(question, name, GreetingReply(name)) && r.state.memory == s.memory
    ensures !IsDuplicate(history, question) && !IsGreeting(question) && r.reply.Answered? ==>
              r.reply.text == answer && r.state.memory == s.memory[question := answer]
    ensures !IsDuplicate(history, question) && !IsGreeting(question) && r.reply.Raised? ==> r.history == history
  {
    if IsDuplicate(history, question) then Exchange(Skipped, s, history)
    else if IsGreeting(question) then
      var text := GreetingReply(name);
      var h := history + Pair(question, name, text);
      match SimulateEmotionsScript(s, outcome, delta)
      case Success(t) => Exchange(Answered(text), t, h)
      case Failure(_) => Exchange(Raised, s, h)
    else
      match SimulateEmotionsScript(s, outcome, delta)
      case Success(t) =>
        Exchange(Answered(answer), t.(memory := t.memory[question := answer]), history + Pair(question, name, answer))
      case Failure(_) => Exchange(Raised, s, history)
  }

  /** A greeting never depends on what document retrieval would have answered. */
  lemma GreetingIgnoresRetrieval(question: string, name: string, s: MemoryState, history: seq<Entry>,
                                 a1: string, a2: string, outcome: ParseOutcome, delta: Field -> real)
    requires IsGreeting(question)
    ensures UserInput(question, name, s, history, a1, outcome, delta) == UserInput(question, name, s, history, a2, outcome, delta)
  {
  }

  /** Once a message has been answered, sending it again is skipped and changes nothing. */
  lemma RepeatIsSkipped(question: string, name: string, s: MemoryState, history: seq<Entry>,
                        answer: string, outcome: ParseOutcome, delta: Field -> real,
                        answer2: string, outcome2: ParseOutcome, delta2: Field -> real)
    requires UserInput(question, name, s, history, answer, outcome, delta).reply.Answered?
    ensures var r := UserInput(question, name, s, history, answer, outcome, delta);
            UserInput(question, name, r.state, r.history, answer2, outcome2, delta2) == Exchange(Skipped, r.state, r.history)
  {
    var r := UserInput(question, name, s, history, answer, outcome, delta);
    assert r.history[|history|] == Entry(UserRole, question);
  }

  /** Each answered call adds exactly two entries; a skipped one adds none. */
  lemma HistoryGrowth(question: string, name: string, s: MemoryState, history: seq<Entry>,
                      answer: string, outcome: ParseOutcome, delta: Field -> real)
    ensures var r := UserInput(question, name, s, history, answer, outcome, delta);
            && |history| <= |r.history| <= |history| + 2
            && r.history[..|history|] == history
            && (r.reply.Answered? ==> |r.history| == |history| + 2)
            && (r.reply.Skipped? ==> r.history == history)
  {
  }

  /** Lower-casing twice is lower-casing once. */
  lemma LowerIdempotent(s: string)
    ensures Lower(Lower(s)) == Lower(s)
  {
  }

  /** Greetings are recognised in any letter case: "Hello", "HEY" and "hi" all count. */
  lemma GreetingIgnoresCase(question: string)
    ensures IsGreeting(question) <==> IsGreeting(Lower(question))
  {
    LowerIdempotent(question);
  }

  /** A greeting must be the whole message: "hi there" goes to retrieval. */
  lemma GreetingIsWholeMessage()
    ensures IsGreeting("Hello")
    ensures !IsGreeting("hi there")
  {
    assert Lower("Hello") == "hello";
    assert |Lower("hi there")| == 8;
  }

  // ---------------------------------------------------------------------
  // `extract_characters`
  // ---------------------------------------------------------------------

  /**
   * test.py `extract_characters` on the model's reply: every comma-separated
   * segment, stripped, empty ones included.
   */
  function ParseCharacterListScript(response: string): (names: seq<string>)
    ensures |names| == Count(response, ',') + 1
    ensures forall k :: 0 <= k < |names| ==> names[k] == Strip(Split(response, ',')[k])
    ensures forall k :: 0 <= k < |names| ==> ',' !in names[k] && Strip(names[k]) == names[k]
  {
    var segs := Split(response, ',');
    forall k | 0 <= k < |segs|
      ensures ',' !in Strip(segs[k]) && Strip(Strip(segs[k])) == Strip(segs[k])
    {
      StripKeepsAbsent(segs[k], ',');
      StripIdempotent(segs[k]);
    }
    PdfProcessor.StripAll(segs)
  }

  /** The list with its empty strings taken out. */
  function RemoveEmpty(xs: seq<string>): (r: seq<string>)
    ensures |r| <= |xs|
    ensures forall k :: 0 <= k < |r| ==> r[k] != ""
  {
    if xs == [] then []
    else if xs[0] == "" then RemoveEmpty(xs[1..])
    else [xs[0]] + RemoveEmpty(xs[1..])
  }

  /**
   * The filtering parser of character.py is the script's parser with the
   * empty entries dropped.
   */
  lemma {:induction false} NonBlankIsStrippedWithoutEmpty(segs: seq<string>)
    ensures PdfProcessor.NonBlankSegments(segs) == RemoveEmpty(PdfProcessor.StripAll(segs))
    decreases |segs|
  {
    if segs != [] {
      assert PdfProcessor.StripAll(segs)[1..] == PdfProcessor.StripAll(segs[1..]);
      NonBlankIsStrippedWithoutEmpty(segs[1..]);
    }
  }

  lemma ScriptAndLegacyParsersAgree(response: string)
    ensures PdfProcessor.ParseCharacterListLegacy(response) == RemoveEmpty(ParseCharacterListScript(response))
  {
    NonBlankIsStrippedWithoutEmpty(Split(response, ','));
  }

  /** ", Alice,,Bob " gives four entries, two of them empty. */
  lemma ScriptKeepsEmptyEntries()
    ensures |ParseCharacterListScript(", Alice,,Bob ")| == 4
  {
    assert ", Alice,,Bob "[0] == ',';
    assert Count(", Alice,,Bob ", ',') == 3;
  }
}
