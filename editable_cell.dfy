/**
 * A table cell edited in place: double-click to edit, Enter, Tab or leaving
 * the field to save, Escape to give up. A number cell reads what was typed
 * the Argentine way (dots group thousands, a comma marks the decimals).
 */
module EditableCells {
  import opened Ledger
  import opened Text
  import opened Numbers

  datatype CellKind = TextCell | NumberCell

  /** The cell's value, or what a save hands to `onSave`: text, or a number of cents. */
  datatype CellValue = TextValue(text: string) | NumberValue(cents: int)

  datatype Key = Enter | Escape | Tab | OtherKey

  /** `String(value)`, the text the cell puts in its field. */
  function JsText(v: CellValue): string {
    match v
    case TextValue(s) => s
    case NumberValue(c) => JsString(c)
  }

  /** The field text with a decimal comma, which the number save reads back. */
  function EditText(v: CellValue): string {
    match v
    case TextValue(s) => s
    case NumberValue(c) => DecimalText(c, ',')
  }

  /** The text the number save parses: dots removed, the first comma made a decimal point. */
  function NumberText(trimmed: string): string {
    ReplaceFirst(RemoveAll(trimmed, '.'), ',', '.')
  }

  /**
   * What `handleSave` hands to `onSave`, None when it does not call it: a
   * text cell saves the trimmed text; a number cell saves the parsed number,
   * or 0 for an empty field or a lone minus, and otherwise nothing.
   */
  function SaveOutcome(kind: CellKind, editValue: string): Option<CellValue> {
    var trimmed := Trim(editValue);
    if kind == NumberCell then
      match ParseFloat(NumberText(trimmed))
      case Some(v) => Some(NumberValue(v))
      case None => if trimmed == "" || trimmed == "-" then Some(NumberValue(0)) else None
    else Some(TextValue(trimmed))
  }

  /** Trimming twice is trimming once. */
  lemma TrimIdempotent(s: string)
    ensures Trim(Trim(s)) == Trim(s)
  {
    var t := Trim(s);
    if t != [] {
      assert !IsSpace(t[0]) && !IsSpace(t[|t| - 1]);
      assert TrimStart(t) == t;
      assert TrimEnd(t) == t;
    }
  }

  /** A text cell always saves, and saving what it saved again gives the same text. */
  lemma TextSaveStable(editValue: string)
    ensures SaveOutcome(TextCell, editValue).Some?
    ensures var saved := SaveOutcome(TextCell, editValue).value;
            saved.TextValue? && SaveOutcome(TextCell, EditText(saved)) == Some(saved)
  {
    TrimIdempotent(editValue);
  }

  /** A number cell opened on any amount and saved unchanged saves that same amount. */
  lemma NumberRoundTrip(c: int)
    ensures SaveOutcome(NumberCell, EditText(NumberValue(c))) == Some(NumberValue(c))
  {
    var s := DecimalText(c, ',');
    DecimalTextTrimmed(c, ',');
    CommaText(c);
    assert RemoveAll(s, '.') == s;
    ParseJsString(c);
  }

  /** As written, an amount with no cents has no dot to lose and still saves unchanged. */
  lemma AsWrittenWholeAmounts(c: int)
    requires Abs(c) % 100 == 0
    ensures SaveOutcome(NumberCell, JsText(NumberValue(c))) == Some(NumberValue(c))
  {
    assert JsText(NumberValue(c)) == EditText(NumberValue(c));
    NumberRoundTrip(c);
  }

  /** An empty field, or one holding only a minus sign, saves 0. */
  lemma BlankSavesZero(editValue: string)
    requires Trim(editValue) == "" || Trim(editValue) == "-"
    ensures SaveOutcome(NumberCell, editValue) == Some(NumberValue(0))
  {
    if Trim(editValue) == "" {
      EmptyNotNumber();
    } else {
      MinusNotNumber();
    }
  }

  lemma EmptyNotNumber()
    ensures ParseFloat(NumberText("")).None?
  {
    assert NumberText("") == "";
    assert TrimStart("") == "";
    assert ScanUnsigned("").None?;
  }

  lemma MinusNotNumber()
    ensures ParseFloat(NumberText("-")).None?
  {
    var minus := "-";
    assert FirstIndex(minus, ',') < 0;
    assert NumberText(minus) == minus;
    assert TrimStart(minus) == minus by {
      assert !IsSpace(minus[0]);
    }
    assert minus[1..] == "";
    assert ScanUnsigned("").None?;
  }

  /**
   * A field whose trimmed text starts with anything but a digit, a sign, a
   * dot or a comma (a letter, say) is not a number, nor blank, nor a lone
   * minus, and is not saved at all.
   */
  lemma NonNumberNotSaved(editValue: string)
    requires Trim(editValue) != "" && !IsDigit(Trim(editValue)[0]) && Trim(editValue)[0] !in "+-.,"
    ensures SaveOutcome(NumberCell, editValue) == None
  {
    var t := Trim(editValue);
    var c := t[0];
    assert !IsSpace(c) by {
      TrimmedStartsWithNonSpace(editValue);
    }
    var u := RemoveAll(t, '.');
    assert u != [] && u[0] == c by {
      assert u == [c] + RemoveAll(t[1..], '.');
    }
    var n := NumberText(t);
    assert n != [] && n[0] == c by {
      var i := FirstIndex(u, ',');
      assert i != 0;
    }
    assert TrimStart(n) == n;
    assert ScanUnsigned(n).None? by {
      assert LeadingDigits(n) == 0;
    }
    assert n[0..] == n;
    assert ScanDecimal(n).None?;
    assert ParseFloat(n).None?;
  }

  /** `String(1.5)` is "1.5". */
  lemma OnePointFiveText()
    ensures JsText(NumberValue(150)) == "1.5"
  {
    assert Digits(1) == "1";
    assert FractionText(50) == "5";
  }

  /** "1.5" has no white space to trim. */
  lemma OnePointFiveTrimmed()
    ensures Trim("1.5") == "1.5"
  {
    var s := "1.5";
    assert !IsSpace(s[0]) && !IsSpace(s[|s| - 1]);
    TrimUnchanged(s);
  }

  /** Removing the dots of "1.5" leaves "15". */
  lemma OnePointFiveUndotted()
    ensures RemoveAll("1.5", '.') == "15"
  {
    var s, tail, last := "1.5", ".5", "5";
    assert s[1..] == tail && tail[1..] == last;
    assert RemoveAll(last, '.') == last by {
      assert last[0] != '.';
    }
    assert RemoveAll(tail, '.') == last;
    assert RemoveAll(s, '.') == [s[0]] + last;
  }

  /** Saving "1.5" removes its dot and parses "15". */
  lemma OnePointFiveStripped()
    ensures NumberText(Trim("1.5")) == "15"
  {
    OnePointFiveTrimmed();
    OnePointFiveUndotted();
    var t := "15";
    assert ',' !in t by {
      assert t[0] != ',' && t[1] != ',';
    }
  }

  lemma FifteenParsed()
    ensures ParseFloat("15") == Some(1500)
  {
    var t := "15";
    assert TrimStart(t) == t by {
      assert !IsSpace(t[0]);
    }
    assert AllDigits(t);
    ScanWholeDigits(t);
    assert t[..1] == "1" && t[..0] == [];
    assert ValueOf(t) == 15;
    assert t[0] != '-' && t[0] != '+';
    assert t[0..] == t;
  }

  /**
   * As written, a number cell opens on `String(value)`, which uses a decimal
   * point, and the save removes every dot: 1.5 opened and saved unchanged
   * comes back as 15.
   */
  lemma AsWrittenSaveScales()
    ensures SaveOutcome(NumberCell, JsText(NumberValue(150))) == Some(NumberValue(1500))
  {
    OnePointFiveText();
    OnePointFiveStripped();
    FifteenParsed();
  }

  /**
   * The cell's state: whether it is being edited, the field text, and the
   * value it shows. The field is filled with `EditText`, the decimal-comma
   * text the number save reads back, where the component as written uses
   * `String(value)` (`JsText`); `AsWrittenSaveScales` shows what that changes.
   */
  class EditableCell {
    var isEditing: bool
    var editValue: string
    var value: CellValue
    const kind: CellKind

    /** While the cell is not being edited, its field holds its value's text, written with a decimal comma. */
    ghost predicate Tracking()
      reads this
    {
      !isEditing ==> editValue == EditText(value)
    }

    constructor (value: CellValue, kind: CellKind)
      ensures !isEditing && this.value == value && this.kind == kind
      ensures editValue == EditText(value) && Tracking()
    {
      isEditing := false;
      editValue := EditText(value);
      this.value := value;
      this.kind := kind;
    }

    /** A double-click, or Enter on the cell, opens the field. */
    method StartEditing()
      modifies this
      ensures isEditing && editValue == old(editValue) && value == old(value)
    {
      isEditing := true;
    }

    /** Typing in the field. */
    method Input(text: string)
      modifies this
      ensures editValue == text && isEditing == old(isEditing) && value == old(value)
    {
      editValue := text;
    }

    /** `handleSave`: the field closes, and what `onSave` receives (if it is called) is returned. */
    method Save() returns (saved: Option<CellValue>)
      modifies this
      ensures !isEditing && editValue == old(editValue) && value == old(value)
      ensures saved == SaveOutcome(kind, old(editValue))
    {
      isEditing := false;
      var trimmed := Trim(editValue);
      if kind == NumberCell {
        var parsed := ParseFloat(NumberText(trimmed));
        if parsed.Some? {
          saved := Some(NumberValue(parsed.value));
        } else if trimmed == "" || trimmed == "-" {
          saved := Some(NumberValue(0));
        } else {
          saved := None;
        }
      } else {
        saved := Some(TextValue(trimmed));
      }
    }

    /**
     * `handleKeyDown`: Enter and Tab save; Escape closes the field and puts
     * the value's text back without saving; any other key changes nothing.
     */
    method KeyDown(key: Key) returns (saved: Option<CellValue>)
      modifies this
      ensures value == old(value)
      ensures key == Enter || key == Tab ==>
                !isEditing && editValue == old(editValue) && saved == SaveOutcome(kind, old(editValue))
      ensures key == Escape ==> !isEditing && editValue == EditText(value) && saved.None? && Tracking()
      ensures key == OtherKey ==> isEditing == old(isEditing) && editValue == old(editValue) && saved.None?
    {
      if key == Enter {
        saved := Save();
      } else if key == Escape {
        editValue := EditText(value);
        isEditing := false;
        saved := None;
      } else if key == Tab {
        saved := Save();
      } else {
        saved := None;
      }
    }

    /** The value changes, or editing ends: a closed field is reset to the value's text. */
    method Sync(newValue: CellValue)
      modifies this
      ensures value == newValue && isEditing == old(isEditing) && Tracking()
      ensures isEditing ==> editValue == old(editValue)
    {
      value := newValue;
      if !isEditing {
        editValue := EditText(value);
      }
    }
  }
}
