/** The key codes the orchestrator dispatches on (keys.py): character
    codes of printable keys, and the control codes of Esc, Tab, Ctrl+H and
    Ctrl+L. */
module Keys {
  const KeyQ: int := 'q' as int
  const KeyCapQ: int := 'Q' as int
  const KeyHelp: int := '?' as int
  const KeyToday: int := 't' as int
  const KeyLeader: int := ',' as int
  const KeyEsc: int := 27
  const KeyI: int := 'i' as int
  const KeyTab: int := 9
  const KeyD: int := 'd' as int
  const KeyCtrlH: int := 8
  const KeyCtrlL: int := 12
  const KeyA: int := 'a' as int
  const KeyH: int := 'h' as int
  const KeyJ: int := 'j' as int
  const KeyK: int := 'k' as int
  const KeyL: int := 'l' as int
  const KeyCapJ: int := 'J' as int
  const KeyCapK: int := 'K' as int

  /** The second keys of the leader prefix, written inline in the source. */
  const KeyM: int := 'm' as int
  const KeyN: int := 'n' as int
}
