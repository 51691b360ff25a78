/**
 * The character's emotional and cognitive state: three dimensional-affect
 * values, four basic emotions and four cognitive parameters, all reals.
 * Models `CharacterState` of app/character_state.py and character_state.py
 * (test.py's copy, which also carries a memory map, is in module Session).
 */
module Emotions {

  datatype CharacterState = CharacterState(
    arousal: real, valence: real, dominance: real,
    sadness: real, anger: real, joy: real, fear: real,
    selectionThreshold: real, resolutionLevel: real,
    goalDirectedness: real, securingRate: real)

  /** One of the eleven fields, with its dictionary key and display label. */
  datatype Field =
    | Arousal | Valence | Dominance
    | Sadness | Anger | Joy | Fear
    | SelectionThreshold | ResolutionLevel | GoalDirectedness | SecuringRate
  {
    /** The key `update_emotions` looks up, as in the model's JSON answer. */
    function Key(): string {
      match this
      case Arousal => "arousal"
      case Valence => "valence"
      case Dominance => "dominance"
      case Sadness => "sadness"
      case Anger => "anger"
      case Joy => "joy"
      case Fear => "fear"
      case SelectionThreshold => "selection_threshold"
      case ResolutionLevel => "resolution_level"
      case GoalDirectedness => "goal_directedness"
      case SecuringRate => "securing_rate"
    }

    /** The label shown next to the progress bar. */
    function Label(): string {
      match this
      case Arousal => "Arousal"
      case Valence => "Valence"
      case Dominance => "Dominance"
      case Sadness => "Sadness"
      case Anger => "Anger"
      case Joy => "Joy"
      case Fear => "Fear"
      case SelectionThreshold => "Selection Threshold"
      case ResolutionLevel => "Resolution Level"
      case GoalDirectedness => "Goal Directedness"
      case SecuringRate => "Securing Rate"
    }

    predicate IsBasicEmotion() {
      Sadness? || Anger? || Joy? || Fear?
    }
  }

  /** The fields in declaration (and display) order. */
  const AllFields: seq<Field> := [
    Arousal, Valence, Dominance,
    Sadness, Anger, Joy, Fear,
    SelectionThreshold, ResolutionLevel, GoalDirectedness, SecuringRate]

  /** The keys `update_emotions` reads; any other key of the input is ignored. */
  const Keys: set<string> := {
    "arousal", "valence", "dominance",
    "sadness", "anger", "joy", "fear",
    "selection_threshold", "resolution_level", "goal_directedness", "securing_rate"}

  function Get(s: CharacterState, f: Field): real {
    match f
    case Arousal => s.arousal
    case Valence => s.valence
    case Dominance => s.dominance
    case Sadness => s.sadness
    case Anger => s.anger
    case Joy => s.joy
    case Fear => s.fear
    case SelectionThreshold => s.selectionThreshold
    case ResolutionLevel => s.resolutionLevel
    case GoalDirectedness => s.goalDirectedness
    case SecuringRate => s.securingRate
  }

  /** The state whose every field is given by `value`. */
  function FromFields(value: Field -> real): (s: CharacterState)
    ensures forall f: Field :: Get(s, f) == value(f)
  {
    CharacterState(
      value(Arousal), value(Valence), value(Dominance),
      value(Sadness), value(Anger), value(Joy), value(Fear),
      value(SelectionThreshold), value(ResolutionLevel), value(GoalDirectedness), value(SecuringRate))
  }

  /** The range every field is meant to stay in. */
  predicate InRange(s: CharacterState) {
    forall f: Field :: 0.0 <= Get(s, f) <= 1.0
  }

  /** Two states that agree on every field are the same state. */
  lemma FieldwiseEqual(a: CharacterState, b: CharacterState)
    requires forall f: Field :: Get(a, f) == Get(b, f)
    ensures a == b
  {
    assert Get(a, Arousal) == Get(b, Arousal) && Get(a, Valence) == Get(b, Valence);
    assert Get(a, Dominance) == Get(b, Dominance) && Get(a, Sadness) == Get(b, Sadness);
    assert Get(a, Anger) == Get(b, Anger) && Get(a, Joy) == Get(b, Joy) && Get(a, Fear) == Get(b, Fear);
    assert Get(a, SelectionThreshold) == Get(b, SelectionThreshold);
    assert Get(a, ResolutionLevel) == Get(b, ResolutionLevel);
    assert Get(a, GoalDirectedness) == Get(b, GoalDirectedness);
    assert Get(a, SecuringRate) == Get(b, SecuringRate);
  }

  /** `CharacterState()` with no arguments: neutral midpoint, no basic emotion. */
  function Default(): (s: CharacterState)
    ensures forall f: Field :: Get(s, f) == if f.IsBasicEmotion() then 0.0 else 0.5
    ensures InRange(s)
  {
    CharacterState(0.5, 0.5, 0.5, 0.0, 0.0, 0.0, 0.0, 0.5, 0.5, 0.5, 0.5)
  }

  /** `dict.get(key, default)`. */
  function Lookup(data: map<string, real>, key: string, default: real): real {
    if key in data then data[key] else default
  }

  /**
   * `update_emotions`: every field whose key is present takes the given value
   * exactly (no clamping); every other field keeps its value.
   */
  function Update(s: CharacterState, data: map<string, real>): (r: CharacterState)
    ensures forall f: Field :: f.Key() in data ==> Get(r, f) == data[f.Key()]
    ensures forall f: Field :: f.Key() !in data ==> Get(r, f) == Get(s, f)
  {
    CharacterState(
      Lookup(data, "arousal", s.arousal),
      Lookup(data, "valence", s.valence),
      Lookup(data, "dominance", s.dominance),
      Lookup(data, "sadness", s.sadness),
      Lookup(data, "anger", s.anger),
      Lookup(data, "joy", s.joy),
      Lookup(data, "fear", s.fear),
      Lookup(data, "selection_threshold", s.selectionThreshold),
      Lookup(data, "resolution_level", s.resolutionLevel),
      Lookup(data, "goal_directedness", s.goalDirectedness),
      Lookup(data, "securing_rate", s.securingRate))
  }

  /** Updating with the empty dictionary changes nothing. */
  lemma UpdateEmpty(s: CharacterState)
    ensures Update(s, map[]) == s
  {
    FieldwiseEqual(Update(s, map[]), s);
  }

  /** Applying the same dictionary twice is the same as applying it once. */
  lemma UpdateIdempotent(s: CharacterState, data: map<string, real>)
    ensures Update(Update(s, data), data) == Update(s, data)
  {
    FieldwiseEqual(Update(Update(s, data), data), Update(s, data));
  }

  /** Two successive updates are one update with the later dictionary winning. */
  lemma UpdateCompose(s: CharacterState, first: map<string, real>, second: map<string, real>)
    ensures Update(Update(s, first), second) == Update(s, first + second)
  {
    FieldwiseEqual(Update(Update(s, first), second), Update(s, first + second));
  }

  /** A key that names none of the eleven fields has no effect. */
  lemma UpdateIgnoresUnknownKey(s: CharacterState, data: map<string, real>, key: string, v: real)
    requires key !in Keys
    ensures Update(s, data[key := v]) == Update(s, data)
  {
    forall f: Field
      ensures Get(Update(s, data[key := v]), f) == Get(Update(s, data), f)
    {
      assert f.Key() in Keys;
    }
    FieldwiseEqual(Update(s, data[key := v]), Update(s, data));
  }

  /** `{joy: 0.9}` on a state with joy 0.2 and fear 0.4 gives joy 0.9 and fear 0.4. */
  lemma UpdateJoyExample(s: CharacterState)
    requires s.joy == 0.2 && s.fear == 0.4
    ensures Update(s, map["joy" := 0.9]).joy == 0.9
    ensures Update(s, map["joy" := 0.9]).fear == 0.4
  {
    assert Get(Update(s, map["joy" := 0.9]), Joy) == 0.9;
    assert Get(Update(s, map["joy" := 0.9]), Fear) == 0.4;
  }

  /** An out-of-range value from the model is stored as given. */
  lemma UpdateDoesNotClamp(s: CharacterState)
    ensures Update(s, map["anger" := 1.5]).anger == 1.5
    ensures !InRange(Update(s, map["anger" := 1.5]))
  {
    assert Get(Update(s, map["anger" := 1.5]), Anger) == 1.5;
  }

  function Min(a: real, b: real): real { if a <= b then a else b }

  function Max(a: real, b: real): real { if a >= b then a else b }

  /** `max(0.0, min(1.0, v))`. */
  function Clamp(v: real): (r: real)
    ensures 0.0 <= r <= 1.0
    ensures 0.0 <= v <= 1.0 ==> r == v
    ensures v < 0.0 ==> r == 0.0
    ensures v > 1.0 ==> r == 1.0
  {
    Max(0.0, Min(1.0, v))
  }

  /** One progress bar: a label and the clamped value it shows. */
  datatype Row = Row(caption: string, value: real)

  /** A titled block of progress bars. */
  datatype Group = Group(title: string, rows: seq<Row>)

  const CoreDimensions: seq<Field> := [Arousal, Valence, Dominance]
  const BasicEmotions: seq<Field> := [Sadness, Anger, Joy, Fear]
  const CognitiveTraits: seq<Field> := [SelectionThreshold, ResolutionLevel, GoalDirectedness, SecuringRate]

  /** The labels in the order both display variants show them. */
  const DisplayLabels: seq<string> := [
    "Arousal", "Valence", "Dominance",
    "Sadness", "Anger", "Joy", "Fear",
    "Selection Threshold", "Resolution Level", "Goal Directedness", "Securing Rate"]

  function Labels(rows: seq<Row>): (labels: seq<string>)
    ensures |labels| == |rows|
    ensures forall i :: 0 <= i < |rows| ==> labels[i] == rows[i].caption
  {
    seq(|rows|, i requires 0 <= i < |rows| => rows[i].caption)
  }

  /** The rows for some fields, each value clamped into [0, 1]. */
  function RowsFor(s: CharacterState, fields: seq<Field>): (rows: seq<Row>)
    ensures |rows| == |fields|
    ensures forall i :: 0 <= i < |fields| ==> rows[i].caption == fields[i].Label()
    ensures forall i :: 0 <= i < |fields| ==> rows[i].value == Clamp(Get(s, fields[i]))
  {
    seq(|fields|, i requires 0 <= i < |fields| => Row(fields[i].Label(), Clamp(Get(s, fields[i]))))
  }

  /** The ungrouped display of character_state.py: eleven rows in fixed order. */
  function FlatDisplay(s: CharacterState): (rows: seq<Row>)
    ensures Labels(rows) == DisplayLabels
    ensures forall i :: 0 <= i < |rows| ==> 0.0 <= rows[i].value <= 1.0
  {
    RowsFor(s, AllFields)
  }

  /** The grouped display of app/character_state.py: 3 + 4 + 4 rows under three titles. */
  function GroupedDisplay(s: CharacterState): (groups: seq<Group>)
    ensures |groups| == 3
    ensures groups[0].title == "Core Dimensions" && |groups[0].rows| == 3
    ensures groups[1].title == "Basic Emotions" && |groups[1].rows| == 4
    ensures groups[2].title == "Cognitive Traits" && |groups[2].rows| == 4
    ensures Labels(groups[0].rows + groups[1].rows + groups[2].rows) == DisplayLabels
    ensures forall g, row :: g in groups && row in g.rows ==> 0.0 <= row.value <= 1.0
  {
    [Group("Core Dimensions", RowsFor(s, CoreDimensions)),
     Group("Basic Emotions", RowsFor(s, BasicEmotions)),
     Group("Cognitive Traits", RowsFor(s, CognitiveTraits))]
  }

  /** Reading the three groups in order gives exactly the flat display. */
  lemma GroupedDisplayFlattens(s: CharacterState)
    ensures var g := GroupedDisplay(s); g[0].rows + g[1].rows + g[2].rows == FlatDisplay(s)
  {
    assert CoreDimensions + BasicEmotions + CognitiveTraits == AllFields;
  }

  /**
   * Each displayed value is the stored value moved into [0, 1]: unchanged when
   * already in range, 0 below it and 1 above it.
   */
  lemma DisplayClampsStoredValue(s: CharacterState, i: nat)
    requires i < |AllFields|
    ensures FlatDisplay(s)[i].caption == AllFields[i].Label()
    ensures 0.0 <= Get(s, AllFields[i]) <= 1.0 ==> FlatDisplay(s)[i].value == Get(s, AllFields[i])
    ensures Get(s, AllFields[i]) < 0.0 ==> FlatDisplay(s)[i].value == 0.0
    ensures Get(s, AllFields[i]) > 1.0 ==> FlatDisplay(s)[i].value == 1.0
  {
  }
}
