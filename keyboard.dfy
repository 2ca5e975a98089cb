/**
 * Keys as the keyboard listener reports them, the values the action enums
 * carry, and the keys the automation taps.
 */
module Keyboard {
  import opened Results

  /** Members of pynput's `Key` enum that the program names; every other one is `OtherSpecial`. */
  datatype SpecialKey = Esc | Enter | Left | Right | OtherSpecial(code: nat)

  /**
   * A key as the listener delivers it: a member of `Key` (a special key), or a
   * `KeyCode` whose character may be absent (a key known only by its virtual code).
   */
  datatype PressedKey = Special(name: SpecialKey) | KeyCode(ch: Option<char>)

  /**
   * A key the program mentions by value: a named special key or a one-character
   * string. Action enum members carry one, and the controller taps one.
   */
  datatype Key = Named(name: SpecialKey) | Char(c: char)

  /** One event of the listener: a key going down or coming up. */
  datatype Event = Press(key: PressedKey) | Release(key: PressedKey)

  /**
   * What a pressed key is compared with: its character for a `KeyCode` (none
   * when it has no character), the key itself for a special key.
   */
  function MatchOf(k: PressedKey): (m: Option<Key>)
    ensures m.Some? && m.value.Named? <==> k.Special?
    ensures m.Some? && m.value.Char? <==> k.KeyCode? && k.ch.Some?
    ensures m.Some? ==> PressOf(m.value) == k
  {
    match k
    case Special(n) => Some(Named(n))
    case KeyCode(c) => if c.Some? then Some(Char(c.value)) else None
  }

  /** The key the listener reports when the operator presses the key `k` names. */
  function PressOf(k: Key): PressedKey
  {
    match k
    case Named(n) => Special(n)
    case Char(c) => KeyCode(Some(c))
  }

  /** The keys the automation ever taps: the two grades, confirm, and the two arrows. */
  predicate Tappable(k: Key)
  {
    k in {Char('1'), Char('3'), Named(Enter), Named(Left), Named(Right)}
  }
}
