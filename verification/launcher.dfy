/** The application launcher: a search box over the installed applications,
    a highlighted position moved by the arrow keys, and launching the
    highlighted (or clicked) application, which also closes the launcher. */
module Launcher {
  import opened Wrappers

  /** An installed application, as far as the search sees it. */
  datatype App = App(title: string, description: string)

  /** A compiled regular expression, seen only through "does it match this text". */
  type Pattern = string -> bool

  /** Regex compilation of the search text: `None` when the text is not a
      valid regular expression. The regex engine itself is not modelled. */
  type Compiler = string -> Option<Pattern>

  /** `str::to_lowercase`: the full Unicode case mapping, seen only as a
      function on strings. */
  type Lowercase = string -> string

  /** The search filter: with no valid regex every application matches;
      otherwise the lowercased title or description must match. */
  predicate AppMatches(re: Option<Pattern>, lower: Lowercase, app: App) {
    re.None? || re.value(lower(app.title)) || re.value(lower(app.description))
  }

  /** Positions (in `apps`) of the matching applications, in list order. */
  function Matching(apps: seq<App>, lower: Lowercase, re: Option<Pattern>): (r: seq<nat>)
    ensures forall j :: 0 <= j < |r| ==> r[j] < |apps| && AppMatches(re, lower, apps[r[j]])
    ensures forall j, k :: 0 <= j < k < |r| ==> r[j] < r[k]
    ensures forall i :: 0 <= i < |apps| && AppMatches(re, lower, apps[i]) ==> i in r
    ensures |r| <= |apps|
  {
    if apps == [] then []
    else
      var n := |apps| - 1;
      var front := Matching(apps[..n], lower, re);
      assert forall i :: 0 <= i < n ==> apps[..n][i] == apps[i];
      if AppMatches(re, lower, apps[n]) then front + [n] else front
  }

  /** `len` in the key handler: every application when the text is not a
      valid regex, otherwise the number of matches. */
  function MatchCount(apps: seq<App>, lower: Lowercase, re: Option<Pattern>): (n: nat)
    ensures n == |Matching(apps, lower, re)|
  {
    if re.None? then (AllMatch(apps, lower); |apps|) else |Matching(apps, lower, re)|
  }

  lemma {:induction false} AllMatch(apps: seq<App>, lower: Lowercase)
    ensures Matching(apps, lower, None) == seq(|apps|, i requires 0 <= i < |apps| => i)
  {
    if apps != [] {
      AllMatch(apps[..|apps| - 1], lower);
    }
  }

  datatype Key = ArrowUp | ArrowDown | Escape | OtherKey
  datatype Event = KeyPressed(key: Key) | KeyReleased(key: Key) | OtherEvent

  /** What the launcher asks of the outside world. */
  datatype Effect = LaunchApp(index: nat) | CloseWindow(window: nat) | FocusInput

  /** A handled message, or the panic the Rust code would raise. */
  datatype Outcome = Done(effects: seq<Effect>) | Panicked

  /** `usize::MAX` on a 64-bit target: what `0usize - 1` wraps to. */
  const UsizeMax: nat := 0xFFFF_FFFF_FFFF_FFFF

  class Launcher {
    var text: string
    const apps: seq<App>
    const lower: Lowercase
    var scrollpos: nat
    var shouldDelete: bool

    /** `Launcher::new`, with the discovered applications and the
        lowercasing of `str::to_lowercase` passed in. */
    constructor (apps: seq<App>, lower: Lowercase)
      ensures text == "" && this.apps == apps && this.lower == lower && scrollpos == 0 && !shouldDelete
    {
      text := "";
      this.apps := apps;
      this.lower := lower;
      scrollpos := 0;
      shouldDelete := false;
    }

    /** `SearchSubmit`: launch the `scrollpos`-th match and close the
        launcher; with fewer matches nothing happens. */
    method SearchSubmit(window: nat, compile: Compiler) returns (out: Outcome)
      modifies this
      ensures text == old(text) && scrollpos == old(scrollpos)
      ensures var m := Matching(apps, lower, compile(text));
              if scrollpos < |m| then
                shouldDelete && out == Done([LaunchApp(m[scrollpos]), CloseWindow(window)])
              else
                shouldDelete == old(shouldDelete) && out == Done([])
    {
      var m := Matching(apps, lower, compile(text));
      if scrollpos < |m| {
        shouldDelete := true;
        out := Done([LaunchApp(m[scrollpos]), CloseWindow(window)]);
      } else {
        out := Done([]);
      }
    }

    /** `SearchEditChanged`: new text, highlight back on the first match. */
    method SearchEditChanged(edit: string) returns (out: Outcome)
      modifies this
      ensures text == edit && scrollpos == 0 && shouldDelete == old(shouldDelete)
      ensures out == Done([])
    {
      scrollpos := 0;
      text := edit;
      out := Done([]);
    }

    /** `Launch(index)`: a click on an entry; indexing past the list panics. */
    method Launch(index: nat, window: nat) returns (out: Outcome)
      modifies this
      ensures text == old(text) && scrollpos == old(scrollpos)
      ensures index < |apps| ==> shouldDelete && out == Done([LaunchApp(index), CloseWindow(window)])
      ensures index >= |apps| ==> shouldDelete == old(shouldDelete) && out == Panicked
    {
      if index < |apps| {
        shouldDelete := true;
        out := Done([LaunchApp(index), CloseWindow(window)]);
      } else {
        out := Panicked;
      }
    }

    /** A key press or release: arrows move the highlight within the
        matches, Escape closes the launcher, anything else refocuses the
        search box. With no match at all, ArrowDown computes `0 - 1` in
        `usize`: a build with overflow checks (`overflowChecks`) panics, and
        one without wraps it to `usize::MAX`, so the highlight still moves. */
    method HandleEvent(event: Event, window: nat, compile: Compiler, overflowChecks: bool) returns (out: Outcome)
      modifies this
      ensures text == old(text)
      ensures var len := MatchCount(apps, lower, compile(text));
              match event
              case OtherEvent =>
                scrollpos == old(scrollpos) && shouldDelete == old(shouldDelete) && out == Done([FocusInput])
              case _ =>
                match event.key
                case ArrowUp =>
                  shouldDelete == old(shouldDelete) &&
                  if old(scrollpos) == 0 then scrollpos == 0 && out == Done([])
                  else scrollpos == old(scrollpos) - 1 && out == Done([FocusInput])
                case ArrowDown =>
                  shouldDelete == old(shouldDelete) &&
                  if len == 0 && overflowChecks then scrollpos == old(scrollpos) && out == Panicked
                  else if old(scrollpos) >= (if len == 0 then UsizeMax else len - 1) then scrollpos == old(scrollpos) && out == Done([])
                  else scrollpos == old(scrollpos) + 1 && out == Done([FocusInput])
                case Escape =>
                  scrollpos == old(scrollpos) && shouldDelete && out == Done([CloseWindow(window)])
                case OtherKey =>
                  scrollpos == old(scrollpos) && shouldDelete == old(shouldDelete) && out == Done([FocusInput])
      ensures old(scrollpos) < MatchCount(apps, lower, compile(text)) ==> scrollpos < MatchCount(apps, lower, compile(text))
    {
      var len := MatchCount(apps, lower, compile(text));
      if event.OtherEvent? {
        return Done([FocusInput]);
      }
      match event.key {
        case ArrowUp =>
          if scrollpos == 0 {
            return Done([]);
          }
          scrollpos := scrollpos - 1;
        case ArrowDown =>
          if len == 0 && overflowChecks {
            return Panicked;
          }
          var last := if len == 0 then UsizeMax else len - 1;
          if scrollpos >= last {
            return Done([]);
          }
          scrollpos := scrollpos + 1;
        case Escape =>
          shouldDelete := true;
          return Done([CloseWindow(window)]);
        case OtherKey =>
      }
      out := Done([FocusInput]);
    }
  }
}
