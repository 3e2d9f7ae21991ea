/** The hinge states the daemon distinguishes (`TabletState`). The source's
    enum also reserves a `TENT` value, commented out, which is not a state. */
module TabletStates {
  import opened Wrappers

  datatype TabletState = Unknown | Closed | Laptop | Tablet
  {
    /** The enum member's `.name`, as passed to the trigger command. */
    function Name(): string
    {
      match this
      case Unknown => "UNKNOWN"
      case Closed => "CLOSED"
      case Laptop => "LAPTOP"
      case Tablet => "TABLET"
    }
  }

  /** The state a trigger command reads from one of its arguments. */
  function FromName(name: string): (r: Option<TabletState>)
    ensures r.Some? ==> r.value.Name() == name
  {
    if name == "UNKNOWN" then Some(Unknown)
    else if name == "CLOSED" then Some(Closed)
    else if name == "LAPTOP" then Some(Laptop)
    else if name == "TABLET" then Some(Tablet)
    else None
  }

  /** Every state's name reads back as that state, so names are distinct. */
  lemma FromNameOfName(s: TabletState)
    ensures FromName(s.Name()) == Some(s)
  {
  }

  lemma NamesDistinct(s: TabletState, t: TabletState)
    ensures s.Name() == t.Name() <==> s == t
  {
    FromNameOfName(s);
    FromNameOfName(t);
  }
}
