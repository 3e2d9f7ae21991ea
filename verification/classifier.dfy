/** `Tablet.evaluate`: the next hinge state from the lid switch, the current
    state and the hinge angle — a Schmitt trigger on `|hinge|` whose lower
    threshold enters tablet mode and whose upper threshold leaves it. */
module Classifier {
  import opened TabletStates
  import opened Angles

  /** The lid switch reading the classifier treats as closed; every other
      reading (`"open"` in practice) counts as open. */
  const LidClosed: string := "closed"

  function Evaluate(lid: string, current: TabletState, hinge: real,
                    threshold: real, hysteresis: real): (r: TabletState)
    // lid override
    ensures lid == LidClosed ==> r == Closed
    // entry rule
    ensures lid != LidClosed && current != Tablet ==>
              (r == Tablet <==> Abs(hinge) <= threshold)
    // hysteresis when leaving tablet mode
    ensures lid != LidClosed && current == Tablet ==>
              (r == Tablet <==> Abs(hinge) <= threshold + hysteresis)
    ensures lid != LidClosed ==> r == Tablet || r == Laptop
    ensures r != Unknown
  {
    if lid == LidClosed then Closed
    else if current != Tablet then
      (if Abs(hinge) <= threshold then Tablet else Laptop)
    else
      (if Abs(hinge) <= threshold + hysteresis then Tablet else Laptop)
  }

  /** No flapping: with the lid open and a non-negative hysteresis, an angle
      inside the band `threshold < |hinge| <= threshold + hysteresis` keeps
      both laptop and tablet mode as they are. */
  lemma BandKeepsState(lid: string, current: TabletState, hinge: real,
                       threshold: real, hysteresis: real)
    requires lid != LidClosed
    requires current == Laptop || current == Tablet
    requires threshold < Abs(hinge) <= threshold + hysteresis
    ensures Evaluate(lid, current, hinge, threshold, hysteresis) == current
  {
  }

  /** With a non-negative hysteresis the classifier settles in one step:
      evaluating again on the same readings gives the same state. */
  lemma EvaluateSettles(lid: string, current: TabletState, hinge: real,
                        threshold: real, hysteresis: real)
    requires hysteresis >= 0.0
    ensures var next := Evaluate(lid, current, hinge, threshold, hysteresis);
            Evaluate(lid, next, hinge, threshold, hysteresis) == next
  {
  }

  /** A negative hysteresis, which the command line does not refuse, makes
      the classifier oscillate on a constant angle: 40 degrees enters tablet
      mode under a 45-degree threshold and then leaves it under a -10-degree
      hysteresis, over and over. */
  lemma NegativeHysteresisOscillates()
    ensures Evaluate("open", Laptop, 40.0, 45.0, -10.0) == Tablet
    ensures Evaluate("open", Tablet, 40.0, 45.0, -10.0) == Laptop
  {
  }

  /** The sign of the hinge angle does not matter. */
  lemma EvaluateEven(lid: string, current: TabletState, hinge: real,
                     threshold: real, hysteresis: real)
    ensures Evaluate(lid, current, hinge, threshold, hysteresis)
         == Evaluate(lid, current, -hinge, threshold, hysteresis)
  {
  }
}
