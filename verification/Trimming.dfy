/** Taking the blanks off both ends of a text: what `trim` in JavaScript and `strings.TrimSpace` in Go do, each with its
    own idea of a blank. */
module Trimming {
  function Strip(text: string, blank: char -> bool): string {
    if text == "" then ""
    else if blank(text[0]) then Strip(text[1..], blank)
    else if blank(text[|text| - 1]) then Strip(text[..|text| - 1], blank)
    else text
  }

  predicate Only(text: string, blank: char -> bool) {
    forall i :: 0 <= i < |text| ==> blank(text[i])
  }

  predicate Around(text: string, lead: string, core: string, trail: string, blank: char -> bool) {
    text == lead + core + trail && Only(lead, blank) && Only(trail, blank)
  }

  predicate Bare(core: string, blank: char -> bool) {
    core != "" ==> !blank(core[0]) && !blank(core[|core| - 1])
  }

  /** `text` is `core` with nothing but blanks around it, and `core` neither begins nor ends with one. */
  ghost predicate Stripped(text: string, core: string, blank: char -> bool) {
    Bare(core, blank) && exists lead, trail :: Around(text, lead, core, trail, blank)
  }

  lemma {:induction false} Strips(text: string, lead: string, core: string, trail: string, blank: char -> bool)
    requires text == lead + core + trail && Only(lead, blank) && Only(trail, blank) && Bare(core, blank)
    ensures Stripped(text, core, blank)
  {
    assert Around(text, lead, core, trail, blank);
  }

  lemma {:induction false} StripStrips(text: string, blank: char -> bool)
    ensures Stripped(text, Strip(text, blank), blank)
    decreases |text|
  {
    var core := Strip(text, blank);
    hide Stripped;
    if text == "" {
      Strips(text, "", "", "", blank);
    } else if blank(text[0]) {
      StripStrips(text[1..], blank);
      var lead, trail := Pieces(text[1..], core, blank);
      Strips(text, [text[0]] + lead, core, trail, blank);
    } else if blank(text[|text| - 1]) {
      var front := text[..|text| - 1];
      StripStrips(front, blank);
      var lead, trail := Pieces(front, core, blank);
      Strips(text, lead, core, trail + [text[|text| - 1]], blank);
    } else {
      Strips(text, "", text, "", blank);
    }
  }

  lemma {:induction false} Pieces(text: string, core: string, blank: char -> bool) returns (lead: string, trail: string)
    requires Stripped(text, core, blank)
    ensures Around(text, lead, core, trail, blank) && Bare(core, blank)
  {
    lead, trail :| Around(text, lead, core, trail, blank);
  }

  lemma {:induction false} OneCore(text: string, lead: string, core: string, trail: string, blank: char -> bool)
    requires Around(text, lead, core, trail, blank) && Bare(core, blank)
    ensures Strip(text, blank) == core
    decreases |text|
  {
    if lead != "" {
      assert text[0] == lead[0];
      assert Around(text[1..], lead[1..], core, trail, blank);
      OneCore(text[1..], lead[1..], core, trail, blank);
    } else if core == "" {
      assert text == trail;
      if text != "" {
        assert Around(text[1..], "", "", text[1..], blank);
        OneCore(text[1..], "", "", text[1..], blank);
      }
    } else if trail != "" {
      assert text[0] == core[0] && text[|text| - 1] == trail[|trail| - 1];
      var front := text[..|text| - 1];
      assert Around(front, lead, core, trail[..|trail| - 1], blank);
      OneCore(front, lead, core, trail[..|trail| - 1], blank);
    } else {
      assert text == core;
    }
  }

  /** Main result: what is left is the one text without blanks at its ends that the given text has between blanks. */
  lemma {:induction false} StripExactly(text: string, core: string, blank: char -> bool)
    ensures Strip(text, blank) == core <==> Stripped(text, core, blank)
  {
    StripStrips(text, blank);
    if Stripped(text, core, blank) {
      var lead, trail := Pieces(text, core, blank);
      OneCore(text, lead, core, trail, blank);
    }
  }

  lemma {:induction false} NothingLeft(text: string, blank: char -> bool)
    ensures Strip(text, blank) == "" <==> Only(text, blank)
  {
    StripStrips(text, blank);
    if Strip(text, blank) == "" {
      var lead, trail := Pieces(text, "", blank);
      assert text == lead + trail;
    }
    if Only(text, blank) {
      assert Around(text, text, "", "", blank);
      OneCore(text, text, "", "", blank);
    }
  }

  lemma {:induction false} StripTwice(text: string, blank: char -> bool)
    ensures Strip(Strip(text, blank), blank) == Strip(text, blank)
  {
    StripStrips(text, blank);
    var core := Strip(text, blank);
    assert Around(core, "", core, "", blank);
    OneCore(core, "", core, "", blank);
  }
}
