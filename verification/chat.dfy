/**
 * `ChatManager.process_user_input` of app/chat.py and chat.py as a function of
 * the prompt, the user and what the outside world answers during the turn.
 * Its effects on the database are returned as an ordered list of events.
 */
module Chat {
  import opened Wrappers
  import opened Emotions
  import opened StateStore
  import opened CharacterManager
  import opened Mentions

  /** The user id of a temporary, not logged-in session. */
  const Anonymous: string := "anonymous"

  /** What the user sees when retrieval or answering raises. */
  const ApologyPrefix: string := "I can't process that right now. Error: "

  /** What the answer chain is asked: the question and the history slot. */
  datatype Request = Request(question: string, history: string)

  /** The answers of everything outside the process during one turn. */
  datatype Environment = Environment(
    loaded: Loaded,                             // the state lookup
    savedId: CharId,                            // the id a save hands back
    extractorReply: string,                     // the name model's text
    rows: seq<Turn>,                            // the conversation search's rows
    answer: Request -> Result<string, string>,  // document search plus chain; a failure carries `str(e)`
    emotionReply: string,                       // the emotion model's text
    parse: string -> ParseOutcome,              // `json.loads`
    delta: Field -> real)                       // the `random.uniform(-0.1, 0.1)` draws

  /** One effect on the database, in the order the turn performs them. */
  datatype Event =
    | StateSaved(state: CharacterState)
    | RecordCreated(state: CharacterState)
    | MentionsSearched(id: Option<CharId>, name: string)
    | ConversationCreated(id: Option<CharId>)
    | MessageSaved(role: string, content: string)

  datatype TurnResult = TurnResult(response: string, state: CharacterState, request: Request, events: seq<Event>)

  function Saves(states: seq<CharacterState>): (events: seq<Event>)
    ensures |events| == |states|
    ensures forall i :: 0 <= i < |states| ==> events[i] == StateSaved(states[i])
    decreases |states|
  {
    if states == [] then [] else [StateSaved(states[0])] + Saves(states[1..])
  }

  lemma SavesOnlyStates(states: seq<CharacterState>)
    ensures forall e :: e in Saves(states) ==> e.StateSaved?
  {
  }

  /** The chain's output, or the apology with the error text. */
  function ResponseText(outcome: Result<string, string>): (text: string)
    ensures outcome.Success? ==> text == outcome.value
    ensures outcome.Failure? ==> text == ApologyPrefix + outcome.error
  {
    match outcome
    case Success(t) => t
    case Failure(e) => ApologyPrefix + e
  }

  /** The conversation search, when the mention step performed one. */
  function SearchEvents(q: MentionQuery, id: Option<CharId>): seq<Event> {
    match q.name
    case Some(name) => if q.searched then [MentionsSearched(id, name)] else []
    case None => []
  }

  /** The writes a logged-in user's turn ends with: state, conversation, then the two messages. */
  function Persisted(id: Option<CharId>, state: CharacterState, prompt: string, response: string): seq<Event> {
    [StateSaved(state), ConversationCreated(id), MessageSaved("user", prompt), MessageSaved("assistant", response)]
  }

  /**
   * The shape every turn's writes take: the saves of the lookup, an optional
   * record, the conversation search, the saves of the emotion step, and the
   * closing writes.
   */
  function Trace(lookup: seq<CharacterState>, record: seq<Event>, search: seq<Event>,
                 step: seq<CharacterState>, closing: seq<Event>): seq<Event>
  {
    Saves(lookup) + record + search + Saves(step) + closing
  }

  /** Every write of a trace is a state save or comes from one of the explicit parts. */
  lemma TraceMember(lookup: seq<CharacterState>, record: seq<Event>, search: seq<Event>,
                    step: seq<CharacterState>, closing: seq<Event>, e: Event)
    requires e in Trace(lookup, record, search, step, closing)
    ensures e.StateSaved? || e in record || e in search || e in closing
  {
    var a := Saves(lookup);
    var b := Saves(step);
    if e in a {
      var i :| 0 <= i < |a| && a[i] == e;
    } else if e in b {
      var i :| 0 <= i < |b| && b[i] == e;
    }
  }

  /**
   * One app/chat.py turn once its three sub-steps have answered: the state
   * lookup, the mention step and the emotion step.
   */
  function Turn(prompt: string, user: string, env: Environment,
                acquired: Acquired, mention: MentionQuery, step: Stepped): (r: TurnResult)
    ensures r.request == Request(prompt, mention.context)
    ensures r.response == ResponseText(env.answer(r.request))
    ensures r.state == step.state
  {
    var created := acquired.id.None? && user != Anonymous;
    var id := if created then Some(env.savedId) else acquired.id;
    var request := Request(prompt, mention.context);
    var response := ResponseText(env.answer(request));
    var events := Trace(acquired.saved,
                        if created then [RecordCreated(acquired.state)] else [],
                        SearchEvents(mention, id),
                        step.saved,
                        if user != Anonymous then Persisted(id, step.state, prompt, response) else []);
    TurnResult(response, step.state, request, events)
  }

  /** app/chat.py `process_user_input`. */
  function ProcessUserInput(prompt: string, user: string, env: Environment): (r: TurnResult)
    ensures r.request == Request(prompt, ResolveMention(prompt, env.extractorReply, env.rows).context)
    ensures r.response == ResponseText(env.answer(r.request))
    ensures r.state == SimulateEmotions(GetCharacterState(env.loaded, env.savedId).state,
                                        env.emotionReply, env.parse, env.delta).state
  {
    var acquired := GetCharacterState(env.loaded, env.savedId);
    Turn(prompt, user, env, acquired,
         ResolveMention(prompt, env.extractorReply, env.rows),
         SimulateEmotions(acquired.state, env.emotionReply, env.parse, env.delta))
  }

  /**
   * When retrieval or answering raises, the reply is the apology carrying the
   * error text, and the emotion step still runs exactly as on success.
   */
  lemma FailureStillUpdatesEmotions(prompt: string, user: string, env: Environment, error: string)
    requires env.answer(ProcessUserInput(prompt, user, env).request) == Failure(error)
    ensures ProcessUserInput(prompt, user, env).response == ApologyPrefix + error
    ensures ProcessUserInput(prompt, user, env).state ==
            SimulateEmotions(GetCharacterState(env.loaded, env.savedId).state, env.emotionReply, env.parse, env.delta).state
  {
  }

  /** The new emotional state does not depend on whether answering succeeded. */
  lemma StateIndependentOfAnswer(prompt: string, user: string, env: Environment, answer': Request -> Result<string, string>)
    ensures ProcessUserInput(prompt, user, env.(answer := answer')).state == ProcessUserInput(prompt, user, env).state
  {
  }

  /** A searched mention step writes one search; otherwise it writes nothing. */
  lemma SearchEventsAreSearches(q: MentionQuery, id: Option<CharId>, e: Event)
    requires e in SearchEvents(q, id)
    ensures e.MentionsSearched?
    ensures q.searched
  {
  }

  /** An anonymous turn creates no record, no conversation and no message. */
  lemma AnonymousTurnSavesNoMessages(prompt: string, env: Environment, acquired: Acquired, mention: MentionQuery, step: Stepped)
    ensures forall e :: e in Turn(prompt, Anonymous, env, acquired, mention, step).events ==>
              !e.MessageSaved? && !e.ConversationCreated? && !e.RecordCreated?
  {
    var search := SearchEvents(mention, acquired.id);
    assert Turn(prompt, Anonymous, env, acquired, mention, step).events == Trace(acquired.saved, [], search, step.saved, []);
    forall e | e in Trace(acquired.saved, [], search, step.saved, [])
      ensures !e.MessageSaved? && !e.ConversationCreated? && !e.RecordCreated?
    {
      TraceMember(acquired.saved, [], search, step.saved, [], e);
      if !e.StateSaved? {
        SearchEventsAreSearches(mention, acquired.id, e);
      }
    }
  }

  lemma AnonymousSavesNoMessages(prompt: string, env: Environment)
    ensures forall e :: e in ProcessUserInput(prompt, Anonymous, env).events ==>
              !e.MessageSaved? && !e.ConversationCreated? && !e.RecordCreated?
  {
    var acquired := GetCharacterState(env.loaded, env.savedId);
    AnonymousTurnSavesNoMessages(prompt, env, acquired, ResolveMention(prompt, env.extractorReply, env.rows),
                                 SimulateEmotions(acquired.state, env.emotionReply, env.parse, env.delta));
  }

  /** A member of a trace without closing writes, when the record and search parts save no message. */
  lemma TraceBodyHasNoMessage(lookup: seq<CharacterState>, record: seq<Event>, search: seq<Event>,
                              step: seq<CharacterState>, i: int)
    requires forall e :: e in record ==> e.RecordCreated?
    requires forall e :: e in search ==> e.MentionsSearched?
    requires 0 <= i < |Trace(lookup, record, search, step, [])|
    ensures !Trace(lookup, record, search, step, [])[i].MessageSaved?
  {
    var t := Trace(lookup, record, search, step, []);
    TraceMember(lookup, record, search, step, [], t[i]);
  }

  /** The last four writes of a logged-in turn, and no message before them but the user's. */
  predicate EndsPersisted(r: TurnResult, prompt: string)
  {
    && |r.events| >= 4
    && r.events[|r.events| - 4] == StateSaved(r.state)
    && r.events[|r.events| - 3].ConversationCreated?
    && r.events[|r.events| - 2] == MessageSaved("user", prompt)
    && r.events[|r.events| - 1] == MessageSaved("assistant", r.response)
    && forall i :: 0 <= i < |r.events| - 2 ==> !r.events[i].MessageSaved?
  }

  lemma NamedTurnPersistsInOrder(prompt: string, user: string, env: Environment,
                                 acquired: Acquired, mention: MentionQuery, step: Stepped)
    requires user != Anonymous
    ensures EndsPersisted(Turn(prompt, user, env, acquired, mention, step), prompt)
  {
    var r := Turn(prompt, user, env, acquired, mention, step);
    var created := acquired.id.None?;
    var id := if created then Some(env.savedId) else acquired.id;
    var record := if created then [RecordCreated(acquired.state)] else [];
    var search := SearchEvents(mention, id);
    var body := Trace(acquired.saved, record, search, step.saved, []);
    var closing := Persisted(id, step.state, prompt, r.response);
    assert r.events == body + closing;
    forall e | e in search ensures e.MentionsSearched? {
      SearchEventsAreSearches(mention, id, e);
    }
    forall i | 0 <= i < |r.events| - 2 ensures !r.events[i].MessageSaved? {
      if i < |body| {
        TraceBodyHasNoMessage(acquired.saved, record, search, step.saved, i);
      } else {
        assert r.events[i] == closing[i - |body|];
      }
    }
  }

  /**
   * A logged-in user's turn ends by saving the state, opening the conversation,
   * and saving the user's message before the assistant's; no other message is saved.
   */
  lemma NamedUserPersistsInOrder(prompt: string, user: string, env: Environment)
    requires user != Anonymous
    ensures EndsPersisted(ProcessUserInput(prompt, user, env), prompt)
  {
    var acquired := GetCharacterState(env.loaded, env.savedId);
    NamedTurnPersistsInOrder(prompt, user, env, acquired, ResolveMention(prompt, env.extractorReply, env.rows),
                             SimulateEmotions(acquired.state, env.emotionReply, env.parse, env.delta));
  }

  lemma TurnRecordsOnlyWithoutId(prompt: string, user: string, env: Environment,
                                 acquired: Acquired, mention: MentionQuery, step: Stepped)
    ensures acquired.id.None? && user != Anonymous
            ==> RecordCreated(acquired.state) in Turn(prompt, user, env, acquired, mention, step).events
    ensures (exists e :: e in Turn(prompt, user, env, acquired, mention, step).events && e.RecordCreated?)
            ==> acquired.id.None? && user != Anonymous
  {
    var r := Turn(prompt, user, env, acquired, mention, step);
    var created := acquired.id.None? && user != Anonymous;
    var id := if created then Some(env.savedId) else acquired.id;
    var record := if created then [RecordCreated(acquired.state)] else [];
    var search := SearchEvents(mention, id);
    var closing := if user != Anonymous then Persisted(id, step.state, prompt, r.response) else [];
    assert r.events == Trace(acquired.saved, record, search, step.saved, closing);
    if created {
      assert r.events[|Saves(acquired.saved)|] == RecordCreated(acquired.state);
    }
    forall e | e in r.events && e.RecordCreated? ensures created {
      TraceMember(acquired.saved, record, search, step.saved, closing, e);
      if e in search {
        SearchEventsAreSearches(mention, id, e);
      }
    }
  }

  /** The extra record is written exactly when a stored state has no id and the user is logged in. */
  lemma RecordCreatedOnlyWithoutId(prompt: string, user: string, env: Environment)
    ensures env.loaded.state.Some? && env.loaded.id.None? && user != Anonymous
            ==> RecordCreated(env.loaded.state.value) in ProcessUserInput(prompt, user, env).events
    ensures (exists e :: e in ProcessUserInput(prompt, user, env).events && e.RecordCreated?)
            ==> env.loaded.state.Some? && env.loaded.id.None? && user != Anonymous
  {
    var acquired := GetCharacterState(env.loaded, env.savedId);
    TurnRecordsOnlyWithoutId(prompt, user, env, acquired, ResolveMention(prompt, env.extractorReply, env.rows),
                             SimulateEmotions(acquired.state, env.emotionReply, env.parse, env.delta));
  }

  lemma UnsearchedTurnSearchesNothing(prompt: string, user: string, env: Environment,
                                      acquired: Acquired, mention: MentionQuery, step: Stepped)
    requires !mention.searched
    ensures forall e :: e in Turn(prompt, user, env, acquired, mention, step).events ==> !e.MentionsSearched?
  {
    var r := Turn(prompt, user, env, acquired, mention, step);
    var created := acquired.id.None? && user != Anonymous;
    var id := if created then Some(env.savedId) else acquired.id;
    var record := if created then [RecordCreated(acquired.state)] else [];
    var closing := if user != Anonymous then Persisted(id, step.state, prompt, r.response) else [];
    assert SearchEvents(mention, id) == [];
    assert r.events == Trace(acquired.saved, record, [], step.saved, closing);
    forall e | e in r.events ensures !e.MentionsSearched? {
      TraceMember(acquired.saved, record, [], step.saved, closing, e);
    }
  }

  /** A prompt with no trigger phrase sends an empty history and searches nothing. */
  lemma NoTriggerNoHistory(prompt: string, user: string, env: Environment)
    requires !IsNameQuery(prompt)
    ensures ProcessUserInput(prompt, user, env).request.history == ""
    ensures forall e :: e in ProcessUserInput(prompt, user, env).events ==> !e.MentionsSearched?
  {
    var acquired := GetCharacterState(env.loaded, env.savedId);
    NoTriggerNoSearch(prompt, env.extractorReply, env.rows);
    UnsearchedTurnSearchesNothing(prompt, user, env, acquired, ResolveMention(prompt, env.extractorReply, env.rows),
                                  SimulateEmotions(acquired.state, env.emotionReply, env.parse, env.delta));
  }

  /**
   * One chat.py turn once its sub-steps have answered: the state is saved
   * right after the lookup and again after the emotion step for every user;
   * only the conversation and messages depend on the user being logged in.
   */
  function LegacyTurn(prompt: string, user: string, env: Environment,
                      acquired: Acquired, mention: MentionQuery, step: Stepped): (r: TurnResult)
    ensures r.request == Request(prompt, mention.context)
    ensures r.response == ResponseText(env.answer(r.request))
    ensures r.state == step.state
  {
    var id := Some(env.savedId);
    var request := Request(prompt, mention.context);
    var response := ResponseText(env.answer(request));
    var events := Trace(acquired.saved + [acquired.state], [], SearchEvents(mention, id),
                        step.saved + [step.state],
                        if user != Anonymous
                        then [ConversationCreated(id), MessageSaved("user", prompt), MessageSaved("assistant", response)]
                        else []);
    TurnResult(response, step.state, request, events)
  }

  /** chat.py `process_user_input`. */
  function ProcessUserInputLegacy(prompt: string, user: string, env: Environment): (r: TurnResult)
    ensures r.request == Request(prompt, ResolveMention(prompt, env.extractorReply, env.rows).context)
    ensures r.response == ResponseText(env.answer(r.request))
    ensures r.state == SimulateEmotionsSliced(GetCharacterState(env.loaded, env.savedId).state,
                                              env.emotionReply, env.parse, env.delta).state
  {
    var acquired := GetCharacterState(env.loaded, env.savedId);
    LegacyTurn(prompt, user, env, acquired,
               ResolveMention(prompt, env.extractorReply, env.rows),
               SimulateEmotionsSliced(acquired.state, env.emotionReply, env.parse, env.delta))
  }

  predicate SavesStateAndMessagesIffNamed(r: TurnResult, user: string)
  {
    && StateSaved(r.state) in r.events
    && (user == Anonymous <==> forall e :: e in r.events ==> !e.MessageSaved?)
  }

  lemma LegacyTurnAlwaysSavesState(prompt: string, user: string, env: Environment,
                                   acquired: Acquired, mention: MentionQuery, step: Stepped)
    ensures SavesStateAndMessagesIffNamed(LegacyTurn(prompt, user, env, acquired, mention, step), user)
  {
    var r := LegacyTurn(prompt, user, env, acquired, mention, step);
    var id := Some(env.savedId);
    var search := SearchEvents(mention, id);
    var lookup := acquired.saved + [acquired.state];
    var stepped := step.saved + [step.state];
    var closing := if user != Anonymous
                   then [ConversationCreated(id), MessageSaved("user", prompt), MessageSaved("assistant", r.response)]
                   else [];
    assert r.events == Trace(lookup, [], search, stepped, closing);
    var k := |Saves(lookup)| + |search| + |stepped| - 1;
    assert r.events[k] == Saves(stepped)[|stepped| - 1];
    if user != Anonymous {
      assert r.events[|r.events| - 1] == MessageSaved("assistant", r.response);
    } else {
      forall e | e in r.events ensures !e.MessageSaved? {
        TraceMember(lookup, [], search, stepped, closing, e);
        if e in search {
          SearchEventsAreSearches(mention, id, e);
        }
      }
    }
  }

  /** A logged-in user's chat.py turn ends with the same four writes as app/chat.py's. */
  lemma LegacyNamedTurnPersistsInOrder(prompt: string, user: string, env: Environment,
                                       acquired: Acquired, mention: MentionQuery, step: Stepped)
    requires user != Anonymous
    ensures EndsPersisted(LegacyTurn(prompt, user, env, acquired, mention, step), prompt)
  {
    var r := LegacyTurn(prompt, user, env, acquired, mention, step);
    var id := Some(env.savedId);
    var search := SearchEvents(mention, id);
    var lookup := acquired.saved + [acquired.state];
    var stepped := step.saved + [step.state];
    var body := Trace(lookup, [], search, stepped, []);
    var closing := [ConversationCreated(id), MessageSaved("user", prompt), MessageSaved("assistant", r.response)];
    assert r.events == body + closing;
    assert body[|body| - 1] == Saves(stepped)[|stepped| - 1];
    forall e | e in search ensures e.MentionsSearched? {
      SearchEventsAreSearches(mention, id, e);
    }
    forall i | 0 <= i < |r.events| - 2 ensures !r.events[i].MessageSaved? {
      if i < |body| {
        TraceBodyHasNoMessage(lookup, [], search, stepped, i);
      } else {
        assert r.events[i] == closing[i - |body|];
      }
    }
  }

  /**
   * In chat.py the final state is saved whoever the user is; messages only for
   * logged-in users, and then the user's message before the assistant's.
   */
  lemma LegacyAlwaysSavesState(prompt: string, user: string, env: Environment)
    ensures SavesStateAndMessagesIffNamed(ProcessUserInputLegacy(prompt, user, env), user)
    ensures user != Anonymous ==> EndsPersisted(ProcessUserInputLegacy(prompt, user, env), prompt)
  {
    var acquired := GetCharacterState(env.loaded, env.savedId);
    var mention := ResolveMention(prompt, env.extractorReply, env.rows);
    var step := SimulateEmotionsSliced(acquired.state, env.emotionReply, env.parse, env.delta);
    LegacyTurnAlwaysSavesState(prompt, user, env, acquired, mention, step);
    if user != Anonymous {
      LegacyNamedTurnPersistsInOrder(prompt, user, env, acquired, mention, step);
    }
  }

  /**
   * With a parser that ignores surrounding whitespace, both versions send the
   * same request and return the same reply and state; they differ only in
   * what they write.
   */
  lemma VariantsAgreeOnReplyAndState(prompt: string, user: string, env: Environment)
    requires IgnoresSurroundingSpace(env.parse)
    ensures ProcessUserInputLegacy(prompt, user, env).request == ProcessUserInput(prompt, user, env).request
    ensures ProcessUserInputLegacy(prompt, user, env).response == ProcessUserInput(prompt, user, env).response
    ensures ProcessUserInputLegacy(prompt, user, env).state == ProcessUserInput(prompt, user, env).state
  {
    var acquired := GetCharacterState(env.loaded, env.savedId);
    SimulateVariantsAgree(acquired.state, env.emotionReply, env.parse, env.delta);
  }
}
