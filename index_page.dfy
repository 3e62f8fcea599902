/** The landing page: it shows the camera preview while sign-to-text is
    enabled, drives its detection switch, and passes each detected gesture on
    to the translation output unless it repeats the output's last character. */
module IndexPage {
  import opened Landmarks

  /** One UTF-16 code unit. */
  type CodeUnit = u: int | 0 <= u < 0x1_0000

  /** A JavaScript string: its `length` and `slice` count UTF-16 code units,
      so a character outside the Basic Multilingual Plane is two of them. */
  type JsString = seq<CodeUnit>

  /** What the page sees of the translation output through its ref: the text
      `getText` would return, or None when the ref has no `getText`. */
  datatype TranslationRef = TranslationRef(getText: Option<JsString>)

  /** The UTF-16 encoding of one character: itself below 0x10000, otherwise a
      high surrogate followed by a low surrogate. */
  function Utf16(c: char): (u: JsString)
    ensures c as int < 0x1_0000 ==> u == [c as int]
    ensures c as int >= 0x1_0000 ==>
      |u| == 2 && 0xD800 <= u[0] < 0xDC00 && 0xDC00 <= u[1] < 0xE000 &&
      (u[0] as int - 0xD800) * 0x400 + (u[1] as int - 0xDC00) + 0x1_0000 == c as int
  {
    if c as int < 0x1_0000 then [c as int]
    else
      var v := c as int - 0x1_0000;
      [0xD800 + v / 0x400, 0xDC00 + v % 0x400]
  }

  /** `currentText.slice(-1)`: the last code unit, or "" for the empty text. */
  function LastChar(s: JsString): (c: JsString)
    ensures |c| <= 1
    ensures s == [] <==> c == []
    ensures s != [] ==> c == [s[|s| - 1]] && s == s[..|s| - 1] + c
  {
    if s == [] then [] else s[|s| - 1..]
  }

  /** The de-duplication rule of `handleGestureDetected`. A gesture of two or
      more code units is never suppressed, and against an empty text every
      non-empty gesture is added. */
  function ShouldAdd(current: JsString, gesture: JsString): (r: bool)
    ensures |gesture| >= 2 ==> r
    ensures current == [] ==> (r <==> gesture != [])
  {
    LastChar(current) != gesture
  }

  /** What the rule means: a gesture is suppressed exactly when it is one code
      unit long and the text already ends with that unit. */
  lemma ShouldAddMeaning(current: JsString, gesture: JsString)
    ensures !ShouldAdd(current, gesture) <==>
      (gesture == [] && current == []) ||
      (|gesture| == 1 && current != [] && current[|current| - 1] == gesture[0])
  {
    if current != [] && |gesture| == 1 {
      assert LastChar(current) == [current[|current| - 1]];
      if LastChar(current) == gesture {
        assert current[|current| - 1] == gesture[0];
      } else {
        assert LastChar(current)[0] != gesture[0];
      }
    }
  }

  /** Appending the gesture that was just added suppresses a repeat of it when
      it is a single code unit. */
  lemma RepeatSuppressed(current: JsString, g: CodeUnit)
    ensures !ShouldAdd(current + [g], [g])
  {
    var s := current + [g];
    assert s[|s| - 1] == g;
  }

  /** A gesture that is one character outside the Basic Multilingual Plane is
      two code units long, so it is added even right after itself: the last
      code unit of the text is only half of it. */
  lemma SupplementaryNeverSuppressed(current: JsString, c: char)
    requires c as int >= 0x1_0000
    ensures ShouldAdd(current, Utf16(c))
    ensures ShouldAdd(current + Utf16(c), Utf16(c))
  {
  }

  class Index {
    var signToTextEnabled: bool
    var isDetecting: bool
    var translation: Option<TranslationRef>   // translationRef.current
    var added: seq<JsString>                  // arguments of addText, in order

    constructor ()
      ensures !signToTextEnabled && !isDetecting && translation == None && added == []
    {
      signToTextEnabled, isDetecting, translation, added := false, false, None, [];
    }

    /** The translation output mounted, unmounted or changed its text. */
    method TranslationChanged(t: Option<TranslationRef>)
      modifies this`translation
      ensures translation == t
    {
      translation := t;
    }

    /** `handleGestureDetected`: with no ref nothing happens; otherwise the
        gesture is added unless it equals the last code unit of the current
        text, which is "" when the ref has no `getText`. */
    method HandleGestureDetected(gesture: JsString)
      modifies this`added
      ensures translation == None ==> added == old(added)
      ensures translation.Some? ==>
        var current := if translation.value.getText.Some? then translation.value.getText.value else [];
        added == if ShouldAdd(current, gesture) then old(added) + [gesture] else old(added)
    {
      if translation.Some? {
        var current := if translation.value.getText.Some? then translation.value.getText.value else [];
        var lastChar := LastChar(current);
        if lastChar != gesture {
          added := added + [gesture];
        }
      }
    }

    /** `handleSignLanguageToggle`: disabling the feature also stops detection;
        enabling it leaves detection as it was. */
    method HandleSignLanguageToggle(enabled: bool)
      modifies this`signToTextEnabled, this`isDetecting
      ensures signToTextEnabled == enabled
      ensures isDetecting == (enabled && old(isDetecting))
    {
      signToTextEnabled := enabled;
      if !enabled {
        isDetecting := false;
      }
    }

    /** `handleToggleDetection`: detection flips. */
    method HandleToggleDetection()
      modifies this`isDetecting
      ensures isDetecting == !old(isDetecting)
    {
      isDetecting := !isDetecting;
    }
  }
}
