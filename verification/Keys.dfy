/** Key codes and key names (src/LayoutProfile.cpp).  The numbers are those of
    linux/input-event-codes.h. */
module Keys {
  import opened Wrappers
  import opened Text

  const KEY_ESC := 1
  const KEY_BACKSPACE := 14
  const KEY_TAB := 15
  const KEY_ENTER := 28
  const KEY_LEFTCTRL := 29
  const KEY_LEFTSHIFT := 42
  const KEY_V := 47
  const KEY_RIGHTSHIFT := 54
  const KEY_LEFTALT := 56
  const KEY_SPACE := 57
  const KEY_RIGHTCTRL := 97
  const KEY_RIGHTALT := 100
  const KEY_HOME := 102
  const KEY_UP := 103
  const KEY_PAGEUP := 104
  const KEY_LEFT := 105
  const KEY_RIGHT := 106
  const KEY_END := 107
  const KEY_DOWN := 108
  const KEY_PAGEDOWN := 109
  const KEY_INSERT := 110
  const KEY_DELETE := 111
  const KEY_LEFTMETA := 125
  const KEY_RIGHTMETA := 126

  const NUMPAD_KEYS: map<string, int> := map[
    "NumPad0" := 82, "Numpad0" := 82, "NumPad1" := 79, "Numpad1" := 79, "NumPad2" := 80, "Numpad2" := 80,
    "NumPad3" := 81, "Numpad3" := 81, "NumPad4" := 75, "Numpad4" := 75, "NumPad5" := 76, "Numpad5" := 76,
    "NumPad6" := 77, "Numpad6" := 77, "NumPad7" := 71, "Numpad7" := 71, "NumPad8" := 72, "Numpad8" := 72,
    "NumPad9" := 73, "Numpad9" := 73, "NumPadAdd" := 78, "NumPadMult" := 55, "NumPadDiv" := 98, "NumPadSub" := 74
  ]

  const FUNCTION_KEYS: map<string, int> := map[
    "F1" := 59, "F2" := 60, "F3" := 61, "F4" := 62, "F5" := 63, "F6" := 64,
    "F7" := 65, "F8" := 66, "F9" := 67, "F10" := 68, "F11" := 87, "F12" := 88
  ]

  const NAVIGATION_KEYS: map<string, int> := map[
    "Left" := KEY_LEFT, "Right" := KEY_RIGHT, "Up" := KEY_UP, "Down" := KEY_DOWN, "Home" := KEY_HOME,
    "End" := KEY_END, "PageUp" := KEY_PAGEUP, "PageDown" := KEY_PAGEDOWN, "Insert" := KEY_INSERT,
    "Delete" := KEY_DELETE, "Del" := KEY_DELETE
  ]

  const EDITING_KEYS: map<string, int> := map[
    "Space" := KEY_SPACE, "Enter" := KEY_ENTER, "Return" := KEY_ENTER, "Tab" := KEY_TAB,
    "Backspace" := KEY_BACKSPACE, "BS" := KEY_BACKSPACE, "Escape" := KEY_ESC, "Esc" := KEY_ESC
  ]

  /** `parse_special_key`; an unknown name throws. */
  function SpecialKey(name: string): Result<int> {
    if name in NUMPAD_KEYS then Ok(NUMPAD_KEYS[name])
    else if name in FUNCTION_KEYS then Ok(FUNCTION_KEYS[name])
    else if name in NAVIGATION_KEYS then Ok(NAVIGATION_KEYS[name])
    else if name in EDITING_KEYS then Ok(EDITING_KEYS[name])
    else Err
  }

  const MODIFIER_KEYS: map<string, int> := map[
    "Alt" := KEY_LEFTALT, "LCtrl" := KEY_LEFTCTRL, "Ctrl" := KEY_LEFTCTRL, "Shift" := KEY_LEFTSHIFT,
    "Meta" := KEY_LEFTMETA, "Super" := KEY_LEFTMETA, "Win" := KEY_LEFTMETA
  ]

  /** `parse_modifier_key`; an unknown name throws. */
  function ModifierKey(name: string): Result<int> {
    if name in MODIFIER_KEYS then Ok(MODIFIER_KEYS[name]) else Err
  }

  /** Key names are words of letters and digits that start with a letter. */
  ghost predicate IsKeyName(name: string) {
    name != "" && All(name, IsWord) && IsWordStart(name[0])
  }

  lemma NumpadNames(name: string)
    requires name in NUMPAD_KEYS
    ensures IsKeyName(name)
  {
  }

  lemma FunctionNames(name: string)
    requires name in FUNCTION_KEYS
    ensures IsKeyName(name)
  {
  }

  lemma NavigationNames(name: string)
    requires name in NAVIGATION_KEYS
    ensures IsKeyName(name)
  {
  }

  lemma EditingNames(name: string)
    requires name in EDITING_KEYS
    ensures IsKeyName(name)
  {
  }

  lemma SpecialKeyNames(name: string)
    requires SpecialKey(name).Ok?
    ensures IsKeyName(name)
  {
    hide IsKeyName, NUMPAD_KEYS, FUNCTION_KEYS, NAVIGATION_KEYS, EDITING_KEYS;
    if name in NUMPAD_KEYS {
      NumpadNames(name);
    } else if name in FUNCTION_KEYS {
      FunctionNames(name);
    } else if name in NAVIGATION_KEYS {
      NavigationNames(name);
    } else {
      EditingNames(name);
    }
  }

  lemma NumpadInitial(name: string)
    requires name in NUMPAD_KEYS
    ensures name != "" && name[0] == 'N'
  {
  }

  lemma FunctionInitial(name: string)
    requires name in FUNCTION_KEYS
    ensures name != "" && name[0] == 'F'
  {
  }

  /** A name with another initial is looked up among the navigation and editing keys only. */
  lemma OtherInitial(name: string)
    requires name == "" || (name[0] != 'N' && name[0] != 'F')
    ensures SpecialKey(name) == if name in NAVIGATION_KEYS then Ok(NAVIGATION_KEYS[name])
                                else if name in EDITING_KEYS then Ok(EDITING_KEYS[name]) else Err
  {
    hide NUMPAD_KEYS, FUNCTION_KEYS, NAVIGATION_KEYS, EDITING_KEYS;
    if name in NUMPAD_KEYS {
      NumpadInitial(name);
    }
    if name in FUNCTION_KEYS {
      FunctionInitial(name);
    }
  }
}
