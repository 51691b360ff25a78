/**
 * The persistence contract the character and chat managers rely on: one
 * emotion record per (character, book source, user), written by upsert.
 * The SQL behind it (database.py) is not part of this model.
 */
module StateStore {
  import opened Wrappers
  import opened Emotions

  /** Who a state belongs to: character name, book source and user. */
  datatype Identity = Identity(character: string, source: string, user: string)

  /** The database's character id, handed back by every save. */
  type CharId = nat

  datatype Record = Record(state: CharacterState, id: CharId)

  datatype Store = Store(records: map<Identity, Record>, nextId: CharId)

  /** What a load answers: the stored state and its id, each possibly absent. */
  datatype Loaded = Loaded(state: Option<CharacterState>, id: Option<CharId>)

  function Load(st: Store, who: Identity): (l: Loaded)
    ensures l.state.Some? <==> who in st.records
    ensures l.state.Some? <==> l.id.Some?
  {
    if who in st.records then Loaded(Some(st.records[who].state), Some(st.records[who].id))
    else Loaded(None, None)
  }

  /** Upsert: an existing record keeps its id, a new one takes the next id. */
  function Save(st: Store, who: Identity, s: CharacterState): (r: (Store, CharId))
    ensures Load(r.0, who) == Loaded(Some(s), Some(r.1))
    ensures forall other :: other != who ==> Load(r.0, other) == Load(st, other)
    ensures who in st.records ==> r.1 == st.records[who].id
  {
    if who in st.records then
      var id := st.records[who].id;
      (st.(records := st.records[who := Record(s, id)]), id)
    else
      (Store(st.records[who := Record(s, st.nextId)], st.nextId + 1), st.nextId)
  }

  /** The store after a sequence of saves for one identity, in order. */
  function SaveAll(st: Store, who: Identity, saved: seq<CharacterState>): (r: Store)
    ensures saved != [] ==> Load(r, who).state == Some(saved[|saved| - 1])
    ensures saved == [] ==> r == st
    decreases |saved|
  {
    if saved == [] then st else SaveAll(Save(st, who, saved[0]).0, who, saved[1..])
  }

  /** Saving the same state twice is the same as saving it once. */
  lemma SaveIdempotent(st: Store, who: Identity, s: CharacterState)
    ensures Save(Save(st, who, s).0, who, s) == Save(st, who, s)
  {
    var once := Save(st, who, s).0;
    assert once.records[who := once.records[who]] == once.records;
  }

  /** Saving back a freshly loaded, unchanged state leaves the store as it was. */
  lemma SaveLoadedIsNoOp(st: Store, who: Identity, s: CharacterState)
    requires Load(st, who).state == Some(s)
    ensures Save(st, who, s).0 == st
  {
    assert st.records[who := Record(s, st.records[who].id)] == st.records;
  }
}
