/** frontend/src/components/TagPanel.tsx: the three selections of the tagging panel and
    the tag built from them when "Add Tag" is pressed. */
module TagPanel {
  import opened Wrappers
  import opened TimeFormat

  /** A tag as `handleAddTag` builds it. A selection that is `undefined` (its vocabulary
      list was empty) is `None`. */
  datatype Tag = Tag(
    id: int,
    timestamp: real,
    eventType: Option<string>,
    player: Option<string>,
    outcome: Option<string>,
    time: string)

  /** The initial state of a selection, `list ? list[0] : ""`: an array is always truthy,
      so this is element 0, which is `undefined` for an empty list. */
  function InitialSelection(options: seq<string>): (r: Option<string>)
    ensures r.Some? <==> |options| > 0
    ensures r.Some? ==> r.value == options[0]
  {
    if |options| > 0 then Some(options[0]) else None
  }

  /** A selection is drawn from its list, and is undefined only when the list is empty. */
  predicate SelectionOf(sel: Option<string>, options: seq<string>) {
    if sel.Some? then sel.value in options else |options| == 0
  }

  class Panel {
    const eventTypes: seq<string>
    const players: seq<string>
    const outcomes: seq<string>
    var selectedEventType: Option<string>
    var selectedPlayer: Option<string>
    var selectedOutcome: Option<string>

    ghost predicate Valid()
      reads this
    {
      && SelectionOf(selectedEventType, eventTypes)
      && SelectionOf(selectedPlayer, players)
      && SelectionOf(selectedOutcome, outcomes)
    }

    constructor (eventTypes: seq<string>, players: seq<string>, outcomes: seq<string>)
      ensures Valid()
      ensures this.eventTypes == eventTypes && this.players == players && this.outcomes == outcomes
      ensures selectedEventType == InitialSelection(eventTypes)
      ensures selectedPlayer == InitialSelection(players)
      ensures selectedOutcome == InitialSelection(outcomes)
    {
      this.eventTypes := eventTypes;
      this.players := players;
      this.outcomes := outcomes;
      selectedEventType := InitialSelection(eventTypes);
      selectedPlayer := InitialSelection(players);
      selectedOutcome := InitialSelection(outcomes);
    }

    /** The event-type `<select>`'s onChange: its value is one of the listed options. */
    method SelectEventType(value: string)
      requires Valid() && value in eventTypes
      modifies this
      ensures Valid()
      ensures selectedEventType == Some(value)
      ensures selectedPlayer == old(selectedPlayer) && selectedOutcome == old(selectedOutcome)
    {
      selectedEventType := Some(value);
    }

    /** The player `<select>`'s onChange. */
    method SelectPlayer(value: string)
      requires Valid() && value in players
      modifies this
      ensures Valid()
      ensures selectedPlayer == Some(value)
      ensures selectedEventType == old(selectedEventType) && selectedOutcome == old(selectedOutcome)
    {
      selectedPlayer := Some(value);
    }

    /** The outcome `<select>`'s onChange. */
    method SelectOutcome(value: string)
      requires Valid() && value in outcomes
      modifies this
      ensures Valid()
      ensures selectedOutcome == Some(value)
      ensures selectedEventType == old(selectedEventType) && selectedPlayer == old(selectedPlayer)
    {
      selectedOutcome := Some(value);
    }

    /** `handleAddTag`, with `Date.now()` passed as `now`: the tag stands at the current
        position, carries its `M:SS` rendering, and takes the three current selections,
        each of which is a word of its vocabulary (or undefined when that vocabulary is
        empty). */
    method HandleAddTag(currentTime: real, now: int) returns (tag: Tag)
      requires Valid()
      ensures tag.id == now && tag.timestamp == currentTime
      ensures tag.time == FormatTime(currentTime)
      ensures tag.eventType == selectedEventType && tag.player == selectedPlayer
              && tag.outcome == selectedOutcome
      ensures tag.eventType.Some? <==> |eventTypes| > 0
      ensures tag.eventType.Some? ==> tag.eventType.value in eventTypes
      ensures tag.player.Some? <==> |players| > 0
      ensures tag.player.Some? ==> tag.player.value in players
      ensures tag.outcome.Some? <==> |outcomes| > 0
      ensures tag.outcome.Some? ==> tag.outcome.value in outcomes
    {
      tag := Tag(now, currentTime, selectedEventType, selectedPlayer, selectedOutcome,
                 FormatTime(currentTime));
    }
  }
}
