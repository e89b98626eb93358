/** The messages of src/fbserver-proto.h, decoded. */
module Protocol {
  import opened SharedMemory

  /** X11 code of the left Super key, which the Search key stands for. */
  const SUPER: nat := 0x85

  /** All X11 codes of the client's table are below this, and all its buttons below that. */
  const KEY_CODES: nat := 0xf2
  const BUTTONS: nat := 8

  /** Keys and buttons are such as the client has. */
  predicate Proper(m: ToServer) {
    (m.Key? ==> m.code < KEY_CODES) && (m.Click? ==> m.button < BUTTONS)
  }

  datatype ToServer =
    | VersionOk
    | Screen(refresh: bool, width: nat, height: nat, paddr: nat, sig: Signature)
    | CursorRequest
    | SetResolution(width: nat, height: nat)
    | Key(code: nat, down: bool)
    | Click(button: nat, down: bool)
    | Move(x: int, y: int)
    | Quit

  datatype ToClient =
    | Init
    | ScreenReply(updated: bool, shmfailed: bool, cursorUpdated: bool, serial: nat)
    | CursorReply(serial: nat)
    | Resolution(width: nat, height: nat)
}
