/** The command-line driver: the fetched event list, when there is one and it
    is not empty, becomes one printed line per event, in the order received;
    otherwise a single fixed message is printed. The HTTP request is not part
    of the model: its outcome arrives as `Option<seq<Event>>`, `None` for
    any non-200 response. */
module Driver {
  import opened Events

  const NoEventsMessage := "No events found or request failed."

  /** Python's `not events` for the fetched list. */
  predicate NoEvents(events: Option<seq<Event>>) {
    events.None? || events.value == []
  }

  /** The printed output, line by line. */
  function Report(events: Option<seq<Event>>): (lines: seq<string>)
    ensures NoEvents(events) ==> lines == [NoEventsMessage]
    ensures !NoEvents(events) ==> |lines| == |events.value|
    ensures !NoEvents(events) ==>
      forall i :: 0 <= i < |lines| ==> lines[i] == FormatEvent(events.value[i])
  {
    if NoEvents(events) then [NoEventsMessage]
    else seq(|events.value|, i requires 0 <= i < |events.value| => FormatEvent(events.value[i]))
  }

  /** A failed request and an empty list print the same thing. */
  lemma FailureIndistinguishable()
    ensures Report(None) == Report(Some([]))
  {
  }

  /** The output of a longer list extends that of its prefix by the new
      event's line: each line depends on its own event only. */
  lemma {:induction false} ReportAppend(events: seq<Event>, e: Event)
    requires events != []
    ensures Report(Some(events + [e])) == Report(Some(events)) + [FormatEvent(e)]
  {
    var a, b := Report(Some(events + [e])), Report(Some(events)) + [FormatEvent(e)];
    assert |a| == |b|;
    forall i | 0 <= i < |a| ensures a[i] == b[i] {
      if i < |events| {
        assert (events + [e])[i] == events[i];
      }
    }
  }

  /** The main loop. `limit` is the parsed `--limit` option, which the
      program never consults: the output depends on the events alone. */
  method Run(events: Option<seq<Event>>, limit: int) returns (output: seq<string>)
    ensures output == Report(events)
  {
    if NoEvents(events) {
      output := [NoEventsMessage];
      return;
    }
    var evs := events.value;
    output := [];
    for i := 0 to |evs|
      invariant |output| == i
      invariant forall j :: 0 <= j < i ==> output[j] == FormatEvent(evs[j])
    {
      var line := FormatEvent(evs[i]);
      output := output + [line];
    }
  }
}
