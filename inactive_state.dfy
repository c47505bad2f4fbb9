/** The inactive state of the ballot scanner console
    (ballotscanner/state/InactiveState.java): what it shows, and where each
    update mode takes the scanner from it. The console is an object whose
    fields the state changes; the accept and reject states are singletons
    whose start time is reset on entry, kept here as two fields of the
    console, and the clock reading is a parameter. */
module ScannerStates {
  import opened Wrappers

  datatype StateName = Inactive | Accept | Reject | Prompt

  /** How the console looks to the states: the current state, the start
      times of the accept and reject states, the messages shown, and the
      response image (None is null). */
  datatype Console<Img> = Console(state: StateName, acceptStart: int, rejectStart: int,
                                  messages: seq<string>, responseImage: Option<Img>)

  const ScanningConsole := "This is a Ballot Scanning Console."
  const NotReady := "Console Currently Not Ready For Use."

  /** updateState(context, updateMode) of the inactive state: -1 stays
      inactive, 1 and 2 enter accept and reject resetting their start time,
      3 enters prompt, and any other mode changes nothing. */
  function Update<Img>(c: Console<Img>, updateMode: int, now: int): Console<Img> {
    if updateMode == -1 then c.(state := Inactive)
    else if updateMode == 1 then c.(state := Accept, acceptStart := now)
    else if updateMode == 2 then c.(state := Reject, rejectStart := now)
    else if updateMode == 3 then c.(state := Prompt)
    else c
  }

  /** displayScreen: exactly the two messages and this state's image. */
  function Display<Img>(c: Console<Img>, stateImage: Option<Img>): Console<Img> {
    c.(messages := [ScanningConsole, NotReady], responseImage := stateImage)
  }

  /** The state each mode leads to, and what it resets: the scanner is
      inactive afterwards exactly after mode -1 or when it was inactive and
      the mode is none of 1, 2 and 3; only modes 1 and 2 touch a start time,
      each its own; messages and image never change; and any other mode
      leaves the console as it was. */
  lemma UpdateEffects<Img>(c: Console<Img>, updateMode: int, now: int)
    ensures var d := Update(c, updateMode, now);
      d.messages == c.messages && d.responseImage == c.responseImage &&
      (d.state == Inactive <==> updateMode == -1 || (c.state == Inactive && updateMode !in {1, 2, 3})) &&
      (d.state == Prompt <==> updateMode == 3 || (c.state == Prompt && updateMode !in {-1, 1, 2})) &&
      (updateMode == 1 ==> d.state == Accept && d.acceptStart == now && d.rejectStart == c.rejectStart) &&
      (updateMode == 2 ==> d.state == Reject && d.rejectStart == now && d.acceptStart == c.acceptStart) &&
      (updateMode !in {1, 2} ==> d.acceptStart == c.acceptStart && d.rejectStart == c.rejectStart) &&
      (updateMode !in {-1, 1, 2, 3} ==> d == c)
  {
  }

  /** Updating twice with the same mode and clock is updating once. */
  lemma UpdateIdempotent<Img>(c: Console<Img>, updateMode: int, now: int)
    ensures Update(Update(c, updateMode, now), updateMode, now) == Update(c, updateMode, now)
  {
  }

  /** Showing the screen again changes nothing, and it never changes the
      state or the start times. */
  lemma DisplayIdempotent<Img>(c: Console<Img>, stateImage: Option<Img>)
    ensures Display(Display(c, stateImage), stateImage) == Display(c, stateImage)
    ensures Display(c, stateImage).state == c.state
    ensures Display(c, stateImage).acceptStart == c.acceptStart && Display(c, stateImage).rejectStart == c.rejectStart
  {
  }

  /** The console the states act on. */
  class ScannerConsole<Img> {
    var state: StateName
    var acceptStart: int
    var rejectStart: int
    var messages: seq<string>
    var responseImage: Option<Img>
    /** The number of updateFrameComponents requests. */
    var refreshes: nat

    function Snapshot(): Console<Img>
      reads this
    {
      Console(state, acceptStart, rejectStart, messages, responseImage)
    }

    constructor (state: StateName, acceptStart: int, rejectStart: int)
      ensures Snapshot() == Console(state, acceptStart, rejectStart, [], None) && refreshes == 0
    {
      this.state, this.acceptStart, this.rejectStart := state, acceptStart, rejectStart;
      messages, responseImage, refreshes := [], None, 0;
    }

    method ClearMessages()
      modifies this
      ensures messages == [] && state == old(state) && acceptStart == old(acceptStart)
      ensures rejectStart == old(rejectStart) && responseImage == old(responseImage) && refreshes == old(refreshes)
    {
      messages := [];
    }

    method AddMessage(m: string)
      modifies this
      ensures messages == old(messages) + [m] && state == old(state) && acceptStart == old(acceptStart)
      ensures rejectStart == old(rejectStart) && responseImage == old(responseImage) && refreshes == old(refreshes)
    {
      messages := messages + [m];
    }

    /** displayScreen(context) of the inactive state. */
    method InactiveDisplayScreen(stateImage: Option<Img>)
      modifies this
      ensures Snapshot() == Display(old(Snapshot()), stateImage)
      ensures refreshes == old(refreshes) + 1
    {
      ClearMessages();
      AddMessage(ScanningConsole);
      AddMessage(NotReady);
      responseImage := stateImage;
      refreshes := refreshes + 1;
    }

    /** updateState(context, updateMode) of the inactive state. */
    method InactiveUpdateState(updateMode: int, now: int)
      modifies this
      ensures Snapshot() == Update(old(Snapshot()), updateMode, now)
      ensures refreshes == old(refreshes)
    {
      if updateMode == -1 {
        state := Inactive;
        return;
      }
      if updateMode == 1 {
        state := Accept;
        acceptStart := now;
        return;
      }
      if updateMode == 2 {
        state := Reject;
        rejectStart := now;
        return;
      }
      if updateMode == 3 {
        state := Prompt;
        return;
      }
    }
  }
}
