/**
 * The theme state machine. The main process owns a binary dark/light
 * state that the renderer can only flip, through `toggleDarkMode`. To
 * restore a saved mode it assumes the state starts light and issues a
 * fixed number of flips: one for `'dark'`, two for `'light'`, none for
 * anything else.
 */
module Theme {
  import opened Results
  import opened JsValues

  /** The main process's theme, as reachable over the `dark-mode:toggle` channel. */
  class NativeTheme {
    var dark: bool
    ghost var toggleCalls: nat   // how many toggle requests the renderer has issued

    constructor (dark: bool)
      ensures this.dark == dark && toggleCalls == 0
    {
      this.dark := dark;
      toggleCalls := 0;
    }

    /** `toggleDarkMode()`: flips the theme and resolves to whether it is now dark;
        when `fails`, the request rejects and the theme is left as it was. */
    method ToggleDarkMode(fails: bool) returns (r: Result<bool, string>)
      modifies this
      ensures toggleCalls == old(toggleCalls) + 1
      ensures fails ==> r.Err? && dark == old(dark)
      ensures !fails ==> dark == !old(dark) && r == Ok(dark)
    {
      toggleCalls := toggleCalls + 1;
      if fails {
        return Err("dark-mode:toggle rejected");
      }
      dark := !dark;
      r := Ok(dark);
    }
  }

  const DARK: Value := Str("dark")
  const LIGHT: Value := Str("light")
  const SYSTEM: Value := Str("system")

  /** How many toggles restoring `mode` issues when none of them fails. */
  function ToggleCount(mode: Value): (n: nat)
    ensures n == 1 <==> mode == DARK
    ensures n == 2 <==> mode == LIGHT
    ensures n == 0 <==> mode != DARK && mode != LIGHT
  {
    if mode == DARK then 1 else if mode == LIGHT then 2 else 0
  }

  /** The theme after `n` successful flips from `dark`. */
  function FlipN(dark: bool, n: nat): (r: bool)
    ensures n >= 2 ==> r == FlipN(dark, n - 2)
  {
    if n == 0 then dark else !FlipN(dark, n - 1)
  }

  /** Only the parity of the number of flips matters. */
  lemma {:induction false} FlipNParity(dark: bool, n: nat)
    ensures FlipN(dark, n) == if n % 2 == 0 then dark else !dark
  {
    if n > 0 {
      FlipNParity(dark, n - 1);
    }
  }

  /** Two toggles are the identity, whatever the starting state; so are any even number. */
  lemma EvenTogglesIdentity(dark: bool, k: nat)
    ensures FlipN(dark, 2 * k) == dark
  {
    FlipNParity(dark, 2 * k);
  }

  /** From the assumed light start, the toggles issued for `'dark'` or `'light'` leave
      the theme equal to the saved mode. */
  lemma RestoresSavedModeFromLight(mode: Value)
    requires mode == DARK || mode == LIGHT
    ensures FlipN(false, ToggleCount(mode)) == (mode == DARK)
  {
  }

  /** The start is assumed, not read: from an already dark theme, restoring `'dark'`
      ends light, while restoring `'light'` still ends where it started. */
  lemma RestoreFromDarkStart(mode: Value)
    requires mode == DARK || mode == LIGHT
    ensures FlipN(true, ToggleCount(mode)) == (mode == LIGHT)
  {
  }

  /** How many toggle requests go out when the one at index `fault` (if any) rejects:
      the rejection ends the sequence, the rejected request itself counted. */
  function IssuedToggles(mode: Value, fault: Option<nat>): (n: nat)
    ensures n <= ToggleCount(mode)
    ensures fault.None? ==> n == ToggleCount(mode)
    ensures fault.Some? ==> n == if fault.value < ToggleCount(mode) then fault.value + 1 else ToggleCount(mode)
  {
    match fault
    case None => ToggleCount(mode)
    case Some(i) => if i < ToggleCount(mode) then i + 1 else ToggleCount(mode)
  }

  /** How many of those requests flip the theme: all issued before the rejected one. */
  function EffectiveFlips(mode: Value, fault: Option<nat>): (n: nat)
    ensures n <= IssuedToggles(mode, fault)
    ensures fault.None? ==> n == ToggleCount(mode)
    ensures fault.Some? && fault.value < ToggleCount(mode) ==> n == fault.value
  {
    match fault
    case None => ToggleCount(mode)
    case Some(i) => if i < ToggleCount(mode) then i else ToggleCount(mode)
  }

  /** When the first toggle request rejects, the theme stays where it was, whatever the
      saved mode; at most that one request goes out. */
  lemma FirstRejectionKeepsTheme(mode: Value, dark: bool)
    ensures FlipN(dark, EffectiveFlips(mode, Some(0))) == dark
    ensures IssuedToggles(mode, Some(0)) == if ToggleCount(mode) == 0 then 0 else 1
  {
  }

  /** With `'light'` saved and the second toggle rejecting, the theme ends flipped once:
      from the assumed light start it ends dark, the opposite of the saved mode. */
  lemma HalfRestoredLight(dark: bool)
    ensures IssuedToggles(LIGHT, Some(1)) == 2
    ensures FlipN(dark, EffectiveFlips(LIGHT, Some(1))) == !dark
    ensures FlipN(false, EffectiveFlips(LIGHT, Some(1)))
  {
  }

  /** A rejection at an index past the last toggle the mode needs changes nothing. */
  lemma LateRejectionIsHarmless(mode: Value, i: nat)
    requires i >= ToggleCount(mode)
    ensures IssuedToggles(mode, Some(i)) == IssuedToggles(mode, None)
    ensures EffectiveFlips(mode, Some(i)) == EffectiveFlips(mode, None)
  {
  }

  /** The deferred callback that applies a saved theme mode; a rejected toggle is caught
      and ends it. `toggleFault` is the index of the toggle request that rejects. */
  method ApplySavedTheme(theme: NativeTheme, mode: Value, toggleFault: Option<nat>)
    modifies theme
    ensures theme.toggleCalls == old(theme.toggleCalls) + IssuedToggles(mode, toggleFault)
    ensures theme.dark == FlipN(old(theme.dark), EffectiveFlips(mode, toggleFault))
  {
    ghost var start := theme.dark;
    FlipNParity(start, 1);
    FlipNParity(start, 2);
    if mode == DARK {
      var _ := theme.ToggleDarkMode(toggleFault == Some(0));
    } else if mode == LIGHT {
      var first := theme.ToggleDarkMode(toggleFault == Some(0));
      if first.Ok? {
        var _ := theme.ToggleDarkMode(toggleFault == Some(1));
      }
    }
  }
}
