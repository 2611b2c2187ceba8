/** The palette of selectable moods and its singleton settings record
    (`get_mood_config`, `set_mood_config`, `DEFAULT_MOODS`). */
module MoodConfig {
  import opened Basics

  /** One selectable mood (`labelText` is the source's `label`, a reserved word
      here); `color` is an optional hex hint. */
  datatype Mood = Mood(value: string, emoji: string, labelText: string, color: Option<string>)

  /** The seven built-in moods, in their fixed order. */
  const DefaultMoods: seq<Mood> := [
    Mood("happy", "\U{1F600}", "Happy", Some("#22c55e")),
    Mood("content", "\U{1F642}", "Content", Some("#10b981")),
    Mood("meh", "\U{1F610}", "Meh", Some("#a3a3a3")),
    Mood("anxious", "\U{1F615}", "Anxious", Some("#f59e0b")),
    Mood("sad", "\U{1F622}", "Sad", Some("#3b82f6")),
    Mood("angry", "\U{1F620}", "Angry", Some("#ef4444")),
    Mood("tired", "\U{1F634}", "Tired", Some("#8b5cf6"))
  ]

  /** No two moods of a palette share a value. */
  predicate DistinctValues(moods: seq<Mood>)
  {
    forall i, j :: 0 <= i < j < |moods| ==> moods[i].value != moods[j].value
  }

  /** The built-in palette has seven moods with distinct values, each with a
      label and a colour. */
  lemma DefaultMoodsWellFormed()
    ensures |DefaultMoods| == 7
    ensures DistinctValues(DefaultMoods)
    ensures forall m :: m in DefaultMoods ==> m.labelText != "" && Given(m.color)
  {
  }

  /** The settings document stored under the key `mood_config`. */
  datatype Settings = Settings(moods: seq<Mood>, updatedAt: Timestamp)

  /** The palette in force: the stored list when the settings document exists
      and its list is non-empty, the built-in palette otherwise. The export
      chooses its palette by the same rule. */
  function ActiveMoods(doc: Option<Settings>): (moods: seq<Mood>)
    ensures moods != []
    ensures doc.Some? && doc.value.moods != [] ==> moods == doc.value.moods
    ensures doc.None? || doc.value.moods == [] ==> moods == DefaultMoods
  {
    if doc.Some? && doc.value.moods != [] then doc.value.moods else DefaultMoods
  }

  /** Reading after a write gives back what was written, unless the written
      list was empty, in which case the built-in palette is read. */
  lemma ReadAfterWrite(moods: seq<Mood>, now: Timestamp)
    ensures moods != [] ==> ActiveMoods(Some(Settings(moods, now))) == moods
    ensures moods == [] ==> ActiveMoods(Some(Settings(moods, now))) == DefaultMoods
  {
  }

  /** The `settings` collection, reduced to its one `mood_config` record. */
  class ConfigStore {
    var doc: Option<Settings>

    /** A fresh store has no settings document: the built-in palette is read. */
    constructor ()
      ensures doc == None
    {
      doc := None;
    }

    /** `get_mood_config`. */
    method Get() returns (moods: seq<Mood>)
      ensures moods == ActiveMoods(doc)
      ensures moods != []
    {
      if doc.Some? && doc.value.moods != [] {
        moods := doc.value.moods;
      } else {
        moods := DefaultMoods;
      }
    }

    /** `set_mood_config`: replaces the record wholesale (no merge, no
        validation) and echoes its input. */
    method Set(moods: seq<Mood>, now: Timestamp) returns (echoed: seq<Mood>)
      modifies this
      ensures doc == Some(Settings(moods, now))
      ensures echoed == moods
    {
      doc := Some(Settings(moods, now));
      echoed := moods;
    }
  }
}
