/**
  The keyboard vocabulary the built-in actions mention. `Key` is a logical key
  (what the key means, as bevy's `Key`), `KeyCode` a physical key (where it sits,
  as bevy's `KeyCode`). Only the members the console names are spelled out; every
  other key is one of the `Other…` values, distinguished by a number.
 */
module Keys {

  datatype Key =
    | ArrowUp
    | ArrowDown
    | Enter
    | Backspace
    | Character(text: string)
    | OtherKey(code: nat)

  datatype KeyCode =
    | ControlLeft
    | ControlRight
    | OtherCode(code: nat)
}
