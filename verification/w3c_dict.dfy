/** The W3C dictionary: one row per Nu HTML Checker message fragment the
    engine maps to a WCAG success criterion. Lookup is by containment, so the
    order of the rows decides which one a message selects. */
module W3cDict {
  import opened Wrappers
  import opened Strings
  import opened RuleTable

  /** What the W3C adapter looks for in a suggestion before enriching it. */
  const EnrichPhrase := "Please add an 'alt' attribute to your image"

  /** The suggestion text up to the point where the alt-text service's answer goes. */
  const AltPrefix := EnrichPhrase + " element to ensure accessibility"

  /** A row of the dictionary without its guideline version: the module copy
      cites "WCAG 2.2" and the copy inside the server cites "WCAG 2.1". */
  datatype Row = Row(key: string, criteria: seq<string>, errorMsg: string, suggestMsg: string)

  /** The rows cited under `version`. */
  function Versioned(rows: seq<Row>, version: string): (t: seq<Rule>)
    ensures |t| == |rows|
    ensures forall i :: 0 <= i < |rows| ==>
              (t[i].ruleid == rows[i].key && t[i].wcag == Cite(version, rows[i].criteria)
               && t[i].errorMsg == rows[i].errorMsg && t[i].suggestMsg == rows[i].suggestMsg)
  {
    seq(|rows|, i requires 0 <= i < |rows| =>
      Rule(rows[i].key, Cite(version, rows[i].criteria), rows[i].errorMsg, rows[i].suggestMsg))
  }

  /** `W3CtoWCAG`, in source order. */
  const W3cTable: seq<Rule> := Versioned(W3cRows, "WCAG 2.2")

  const W3cRows: seq<Row> := [
    ImgAlt, UnclosedElement, StrayEndTag, DuplicateId, EmptyTitleElement,
    MissingChild, IsMissingChild, MissingLang, AreaAlt, AreaHref,
    InputLabel, LongTitle, AnchorText, EmptyHeading, HeadingLevel,
    AreaAltAgain, AreaHrefAgain, InputLabelAgain, FormSubmit, TextareaLabel,
    InputLabelOnceMore, SelectLabel
  ]

  const ImgAlt := Row("An “img” element must have an “alt” attribute", ["1.1.1"],
      "Image elements should have an alt attribute.",
      AltPrefix + ": <img src='...' alt=>")
  const UnclosedElement := Row("Unclosed element", ["4.1.1"],
      "Element must have a proper opening/closing tag.",
      CompleteTagSuggestion)
  const StrayEndTag := Row("Stray end tag", ["4.1.1"],
      "Element must have a proper opening/closing tag.",
      CompleteTagSuggestion)
  const DuplicateId := Row("Duplicate ID", ["4.1.1"],
      "Element must have unique IDs.",
      UniqueIdSuggestion)
  const EmptyTitleElement := Row("Element “title” must not be empty.", ["2.4.2"],
      "Element title cannot be empty, must have text content",
      DescriptiveTitleSuggestion)
  const MissingChild := Row("missing a required instance of child element", ["2.4.2"],
      "Element title cannot be empty, must have text content",
      DescriptiveTitleSuggestion)
  const IsMissingChild := Row("is missing a required instance of child element", ["2.4.2"],
      "Web pages must have a descriptive and concise title that accurately reflects the topic or purpose of the page.",
      PageTitleSuggestion)
  const MissingLang := Row("Consider adding a “lang” attribute to the “html” start tag to declare the language of this document.", ["3.1.1"],
      "You must programatically define the primary language of each page.",
      LangSuggestion)
  const AreaAlt := Row("Element “area” is missing required attribute “alt”", ["1.1.1"],
      "'Area' elements should have an alt attribute.",
      AreaAltSuggestion)
  const AreaHref := Row("Element “area” is missing required attribute “href”", ["1.1.1"],
      "'Area' elements should have an href attribute.",
      AreaHrefSuggestion)
  const InputLabel := Row("<input> element does not have a <label>", ["1.1.1"],
      "Input is missing a label",
      LabelSuggestion)
  const LongTitle := Row("title text cannot be longer than 70 characters", ["2.4.2"],
      "Title text cannot be longer than 70 characters.",
      TitleLengthSuggestion)
  const AnchorText := Row("Anchor link must have a text describing its purpose", ["2.4.4"],
      "Anchor link must have a text describing its purpose.",
      AnchorTextSuggestion)
  const EmptyHeading := Row("Empty Heading", ["2.4.6"],
      "Headings cannot be empty.",
      HeadingTextSuggestion)
  const HeadingLevel := Row("Heading level can only increase by one, expected <h2> but got <h3>", ["2.4.10"],
      "Heading level can only increase by one.",
      HeadingLevelSuggestion)
  const AreaAltAgain := Row("Element “area” is missing required attribute “alt”", ["1.1.1"],
      "'Area' elements should have an alt attribute.",
      AreaAltSuggestion)
  const AreaHrefAgain := Row("Element “area” is missing required attribute “href”", ["1.1.1"],
      "'Area' elements should have an href attribute.",
      AreaHrefSuggestion)
  const InputLabelAgain := Row("<input> element does not have a <label>", ["1.1.1"],
      "Input is missing a label",
      LabelSuggestion)
  const FormSubmit := Row("<form> element must have a submit button", ["3.2.2"],
      "Form elements must have a submit button",
      SubmitSuggestion)
  const TextareaLabel := Row("<textarea> element does not have a <label>", ["3.3.2"],
      "Textarea is missing a label",
      LabelSuggestion)
  const InputLabelOnceMore := Row("<input> element does not have a <label>", ["3.3.2"],
      "Input is missing a label",
      LabelSuggestion)
  const SelectLabel := Row("<select> element does not have a <label>", ["3.3.2"],
      "Select is missing a label",
      LabelSuggestion)

  /** The suggestion texts, each named once and shared by the rows that offer it. */
  const CompleteTagSuggestion :=
    "Please add the "
    + "appropriate HTML tag to "
    + "complete."
  const UniqueIdSuggestion :=
    "Please make sure all your "
    + "attributes have different "
    + "and unique IDs."
  const DescriptiveTitleSuggestion :=
    "Please add a descriptive "
    + "title to your content."
  const PageTitleSuggestion :=
    "Please add a "
    + "descriptive and concise "
    + "title to your web page "
    + "using the 'title' element "
    + "within the 'head' section."
  const LangSuggestion :=
    "Please add a lang "
    + "attribute to the HTML tag "
    + "and state the primary "
    + "language."
  const AreaAltSuggestion :=
    "Please add an 'alt' "
    + "attribute to your area "
    + "element to ensure "
    + "accessibility."
  const AreaHrefSuggestion :=
    "Make sure there is an "
    + "'href' present in your "
    + "area element."
  const LabelSuggestion :=
    "Please add a label "
    + "attribute to your input."
  const TitleLengthSuggestion :=
    "Please limit your webpage "
    + "title to below 70 "
    + "characters for better SEO."
  const AnchorTextSuggestion :=
    "Please add either an "
    + "'alt' tribute inside your "
    + "anchor link or a text "
    + "describing it."
  const HeadingTextSuggestion :=
    "Please make sure to "
    + "provide descriptive "
    + "headings for your content."
  const HeadingLevelSuggestion :=
    "Please check if your "
    + "headings start at h1 and "
    + "if it only increases one "
    + "level at a time. (h1>h6)"
  const SubmitSuggestion :=
    "Please add submit button "
    + "on your form group."

  /** The key of row 6 is "is " followed by the key of row 5. */
  lemma IsMissingChildExtendsMissingChild()
    ensures "is missing a required instance of child element"
      == "is " + "missing a required instance of child element"
  {
    LongKeyChunks();
    ShortKeyChunks();
    KeyHeadChunks();
    Regroup("is missing a required instance of child element",
      "missing a required instance of child element",
      "is ", "missing a required ", "instance of child element");
  }

  lemma LongKeyChunks()
    ensures "is missing a required instance of child element"
      == "is missing a required " + "instance of child element"
  {
  }

  lemma ShortKeyChunks()
    ensures "missing a required instance of child element"
      == "missing a required " + "instance of child element"
  {
  }

  lemma KeyHeadChunks()
    ensures "is missing a required " == "is " + "missing a required "
  {
  }

  /** Row 6 (`is missing a required instance of child element`) is never
      selected: every message that contains its key contains row 5's key. */
  lemma IsMissingChildUnreachable()
    ensures W3cTable[6].ruleid == IsMissingChild.key
    ensures Unreachable(W3cTable, 6)
  {
    IsMissingChildExtendsMissingChild();
    assert IsMissingChild.key == "is " + MissingChild.key;
    var k6 := IsMissingChild.key;
    assert k6[3..] == MissingChild.key;
    assert StartsAt(k6, 3, MissingChild.key);
    ShadowedUnreachable(W3cTable, 5, 6);
  }

  /** The later copies of repeated keys are never selected: the second
      area-alt and area-href rows, and the second and third input-label rows.
      In particular the input-label row citing 3.3.2 is never returned. */
  lemma RepeatedKeysUnreachable()
    ensures Unreachable(W3cTable, 15) && Unreachable(W3cTable, 16)
    ensures Unreachable(W3cTable, 17) && Unreachable(W3cTable, 20)
    ensures W3cTable[20].wcag == Cite("WCAG 2.2", ["3.3.2"])
  {
    DuplicateUnreachable(W3cTable, 8, 15);
    DuplicateUnreachable(W3cTable, 9, 16);
    DuplicateUnreachable(W3cTable, 10, 17);
    DuplicateUnreachable(W3cTable, 10, 20);
  }

  /** Every citation in this table begins with "WCAG 2.2 | ". */
  lemma W3cCitationsPrefix()
    ensures forall i :: 0 <= i < |W3cTable| ==> StartsAt(W3cTable[i].wcag, 0, "WCAG 2.2 | ")
  {
    forall i | 0 <= i < |W3cTable|
      ensures StartsAt(W3cTable[i].wcag, 0, "WCAG 2.2 | ")
    {
      CiteStartsWithVersion("WCAG 2.2", W3cRows[i].criteria);
    }
  }

  /** The image row's citation spells out as the dictionary writes it. */
  lemma ImgAltCitation()
    ensures W3cTable[0].wcag == "WCAG 2.2 | 1.1.1"
  {
  }

  /** The image row's suggestion is the one the W3C adapter enriches. */
  lemma ImgAltEnrichable()
    ensures W3cTable[0].suggestMsg == ImgAlt.suggestMsg
    ensures Contains(W3cTable[0].suggestMsg, EnrichPhrase)
    ensures forall k :: 1 <= k < |W3cTable| ==> !Contains(W3cTable[k].suggestMsg, EnrichPhrase)
  {
    assert StartsAt(ImgAlt.suggestMsg, 0, EnrichPhrase);
    forall k | 1 <= k < |W3cRows|
      ensures !Contains(W3cRows[k].suggestMsg, EnrichPhrase)
    {
      RowNotEnrichable(k);
    }
  }

  /** Which named suggestion rows 1 to 7 offer. */
  lemma RowSuggestionsBefore8()
    ensures W3cRows[1].suggestMsg == CompleteTagSuggestion
    ensures W3cRows[2].suggestMsg == CompleteTagSuggestion
    ensures W3cRows[3].suggestMsg == UniqueIdSuggestion
    ensures W3cRows[4].suggestMsg == DescriptiveTitleSuggestion
    ensures W3cRows[5].suggestMsg == DescriptiveTitleSuggestion
    ensures W3cRows[6].suggestMsg == PageTitleSuggestion
    ensures W3cRows[7].suggestMsg == LangSuggestion
  {
  }

  /** Which named suggestion rows 8 to 14 offer. */
  lemma RowSuggestionsBefore15()
    ensures W3cRows[8].suggestMsg == AreaAltSuggestion
    ensures W3cRows[9].suggestMsg == AreaHrefSuggestion
    ensures W3cRows[10].suggestMsg == LabelSuggestion
    ensures W3cRows[11].suggestMsg == TitleLengthSuggestion
    ensures W3cRows[12].suggestMsg == AnchorTextSuggestion
    ensures W3cRows[13].suggestMsg == HeadingTextSuggestion
    ensures W3cRows[14].suggestMsg == HeadingLevelSuggestion
  {
  }

  /** Which named suggestion rows 15 to 21 offer. */
  lemma RowSuggestionsFrom15()
    ensures W3cRows[15].suggestMsg == AreaAltSuggestion
    ensures W3cRows[16].suggestMsg == AreaHrefSuggestion
    ensures W3cRows[17].suggestMsg == LabelSuggestion
    ensures W3cRows[18].suggestMsg == SubmitSuggestion
    ensures W3cRows[19].suggestMsg == LabelSuggestion
    ensures W3cRows[20].suggestMsg == LabelSuggestion
    ensures W3cRows[21].suggestMsg == LabelSuggestion
  {
  }

  /** No row after the image row carries the phrase, so the W3C adapter
      enriches the image suggestion and no other. Each other suggestion lacks
      one of the phrase's characters, except the page-title suggestion, which
      opens with a different sentence and has no other capital P. */
  lemma RowNotEnrichable(k: nat)
    requires 1 <= k < |W3cRows|
    ensures !Contains(W3cRows[k].suggestMsg, EnrichPhrase)
  {
    if k < 8 {
      RowsNotEnrichableBefore8(k);
    } else if k < 15 {
      RowsNotEnrichableBefore15(k);
    } else {
      RowsNotEnrichableFrom15(k);
    }
  }

  /** Rows 1 to 7. */
  lemma RowsNotEnrichableBefore8(k: nat)
    requires 1 <= k < 8
    ensures !Contains(W3cRows[k].suggestMsg, EnrichPhrase)
  {
    RowSuggestionsBefore8();
    assert EnrichPhrase[14] == '\'' && EnrichPhrase[41] == 'g' && EnrichPhrase[39] == 'm';
    if k == 1 || k == 2 {
      CompleteTagSuggestionLacksApostrophe();
      MissingCharNotContained(CompleteTagSuggestion, EnrichPhrase, '\'');
    } else if k == 3 {
      UniqueIdSuggestionLacksApostrophe();
      MissingCharNotContained(UniqueIdSuggestion, EnrichPhrase, '\'');
    } else if k == 4 || k == 5 {
      DescriptiveTitleSuggestionLacksApostrophe();
      MissingCharNotContained(DescriptiveTitleSuggestion, EnrichPhrase, '\'');
    } else if k == 6 {
      PageTitleSuggestionOpensDifferently();
    } else if k == 7 {
      LangSuggestionLacksApostrophe();
      MissingCharNotContained(LangSuggestion, EnrichPhrase, '\'');
    }
  }

  /** Rows 8 to 14. */
  lemma RowsNotEnrichableBefore15(k: nat)
    requires 8 <= k < 15
    ensures !Contains(W3cRows[k].suggestMsg, EnrichPhrase)
  {
    RowSuggestionsBefore15();
    assert EnrichPhrase[14] == '\'' && EnrichPhrase[41] == 'g' && EnrichPhrase[39] == 'm';
    if k == 8 {
      AreaAltSuggestionLacksLetterG();
      MissingCharNotContained(AreaAltSuggestion, EnrichPhrase, 'g');
    } else if k == 9 {
      AreaHrefSuggestionLacksLetterG();
      MissingCharNotContained(AreaHrefSuggestion, EnrichPhrase, 'g');
    } else if k == 10 {
      LabelSuggestionLacksApostrophe();
      MissingCharNotContained(LabelSuggestion, EnrichPhrase, '\'');
    } else if k == 11 {
      TitleLengthSuggestionLacksApostrophe();
      MissingCharNotContained(TitleLengthSuggestion, EnrichPhrase, '\'');
    } else if k == 12 {
      AnchorTextSuggestionLacksLetterM();
      MissingCharNotContained(AnchorTextSuggestion, EnrichPhrase, 'm');
    } else if k == 13 {
      HeadingTextSuggestionLacksApostrophe();
      MissingCharNotContained(HeadingTextSuggestion, EnrichPhrase, '\'');
    } else if k == 14 {
      HeadingLevelSuggestionLacksApostrophe();
      MissingCharNotContained(HeadingLevelSuggestion, EnrichPhrase, '\'');
    }
  }

  /** Rows 15 to 21. */
  lemma RowsNotEnrichableFrom15(k: nat)
    requires 15 <= k < 22
    ensures !Contains(W3cRows[k].suggestMsg, EnrichPhrase)
  {
    RowSuggestionsFrom15();
    assert EnrichPhrase[14] == '\'' && EnrichPhrase[41] == 'g' && EnrichPhrase[39] == 'm';
    if k == 15 {
      AreaAltSuggestionLacksLetterG();
      MissingCharNotContained(AreaAltSuggestion, EnrichPhrase, 'g');
    } else if k == 16 {
      AreaHrefSuggestionLacksLetterG();
      MissingCharNotContained(AreaHrefSuggestion, EnrichPhrase, 'g');
    } else if k == 17 || k == 19 || k == 20 || k == 21 {
      LabelSuggestionLacksApostrophe();
      MissingCharNotContained(LabelSuggestion, EnrichPhrase, '\'');
    } else if k == 18 {
      SubmitSuggestionLacksApostrophe();
      MissingCharNotContained(SubmitSuggestion, EnrichPhrase, '\'');
    }
  }

  /** `CompleteTagSuggestion` has no apostrophe. */
  lemma CompleteTagSuggestionLacksApostrophe()
    ensures '\'' !in CompleteTagSuggestion
  {
    var a, b, c := "Please add the ", "appropriate HTML tag to ", "complete.";
    assert '\'' !in a;
    assert '\'' !in b;
    assert '\'' !in c;
    assert CompleteTagSuggestion == a + b + c;
  }

  /** `UniqueIdSuggestion` has no apostrophe. */
  lemma UniqueIdSuggestionLacksApostrophe()
    ensures '\'' !in UniqueIdSuggestion
  {
    var a, b, c := "Please make sure all your ", "attributes have different ", "and unique IDs.";
    assert '\'' !in a;
    assert '\'' !in b;
    assert '\'' !in c;
    assert UniqueIdSuggestion == a + b + c;
  }

  /** `DescriptiveTitleSuggestion` has no apostrophe. */
  lemma DescriptiveTitleSuggestionLacksApostrophe()
    ensures '\'' !in DescriptiveTitleSuggestion
  {
    var a, b := "Please add a descriptive ", "title to your content.";
    assert '\'' !in a;
    assert '\'' !in b;
    assert DescriptiveTitleSuggestion == a + b;
  }

  /** `PageTitleSuggestion` is "Please add a " followed by a text without a capital P. */
  lemma PageTitleSuggestionTail() returns (tail: string)
    ensures PageTitleSuggestion == "Please add a " + tail && 'P' !in tail
  {
    var b, c, d, e := "descriptive and concise ", "title to your web page ", "using the 'title' element ", "within the 'head' section.";
    tail := b + c + d + e;
    assert 'P' !in tail by {
      assert 'P' !in b;
      assert 'P' !in c;
      assert 'P' !in d;
      assert 'P' !in e;
    }
  }

  /** `PageTitleSuggestion` opens with "Please add a " rather than "Please add an", and has
      no capital P after its first character, so it cannot hold the phrase. */
  lemma PageTitleSuggestionOpensDifferently()
    ensures !Contains(PageTitleSuggestion, EnrichPhrase)
  {
    var tail := PageTitleSuggestionTail();
    var a := "Please add a ";
    assert a[12] == ' ' && EnrichPhrase[12] == 'n';
    assert 'P' !in a[1..];
    HeadOnlyAtStart(a, tail, EnrichPhrase);
  }

  /** `LangSuggestion` has no apostrophe. */
  lemma LangSuggestionLacksApostrophe()
    ensures '\'' !in LangSuggestion
  {
    var a, b, c, d := "Please add a lang ", "attribute to the HTML tag ", "and state the primary ", "language.";
    assert '\'' !in a;
    assert '\'' !in b;
    assert '\'' !in c;
    assert '\'' !in d;
    assert LangSuggestion == a + b + c + d;
  }

  /** `AreaAltSuggestion` has no letter g. */
  lemma AreaAltSuggestionLacksLetterG()
    ensures 'g' !in AreaAltSuggestion
  {
    var a, b, c, d := "Please add an 'alt' ", "attribute to your area ", "element to ensure ", "accessibility.";
    assert 'g' !in a;
    assert 'g' !in b;
    assert 'g' !in c;
    assert 'g' !in d;
    assert AreaAltSuggestion == a + b + c + d;
  }

  /** `AreaHrefSuggestion` has no letter g. */
  lemma AreaHrefSuggestionLacksLetterG()
    ensures 'g' !in AreaHrefSuggestion
  {
    var a, b, c := "Make sure there is an ", "'href' present in your ", "area element.";
    assert 'g' !in a;
    assert 'g' !in b;
    assert 'g' !in c;
    assert AreaHrefSuggestion == a + b + c;
  }

  /** `LabelSuggestion` has no apostrophe. */
  lemma LabelSuggestionLacksApostrophe()
    ensures '\'' !in LabelSuggestion
  {
    var a, b := "Please add a label ", "attribute to your input.";
    assert '\'' !in a;
    assert '\'' !in b;
    assert LabelSuggestion == a + b;
  }

  /** `TitleLengthSuggestion` has no apostrophe. */
  lemma TitleLengthSuggestionLacksApostrophe()
    ensures '\'' !in TitleLengthSuggestion
  {
    var a, b, c := "Please limit your webpage ", "title to below 70 ", "characters for better SEO.";
    assert '\'' !in a;
    assert '\'' !in b;
    assert '\'' !in c;
    assert TitleLengthSuggestion == a + b + c;
  }

  /** `AnchorTextSuggestion` has no letter m. */
  lemma AnchorTextSuggestionLacksLetterM()
    ensures 'm' !in AnchorTextSuggestion
  {
    var a, b, c, d := "Please add either an ", "'alt' tribute inside your ", "anchor link or a text ", "describing it.";
    assert 'm' !in a;
    assert 'm' !in b;
    assert 'm' !in c;
    assert 'm' !in d;
    assert AnchorTextSuggestion == a + b + c + d;
  }

  /** `HeadingTextSuggestion` has no apostrophe. */
  lemma HeadingTextSuggestionLacksApostrophe()
    ensures '\'' !in HeadingTextSuggestion
  {
    var a, b, c := "Please make sure to ", "provide descriptive ", "headings for your content.";
    assert '\'' !in a;
    assert '\'' !in b;
    assert '\'' !in c;
    assert HeadingTextSuggestion == a + b + c;
  }

  /** `HeadingLevelSuggestion` has no apostrophe. */
  lemma HeadingLevelSuggestionLacksApostrophe()
    ensures '\'' !in HeadingLevelSuggestion
  {
    var a, b, c, d := "Please check if your ", "headings start at h1 and ", "if it only increases one ", "level at a time. (h1>h6)";
    assert '\'' !in a;
    assert '\'' !in b;
    assert '\'' !in c;
    assert '\'' !in d;
    assert HeadingLevelSuggestion == a + b + c + d;
  }

  /** `SubmitSuggestion` has no apostrophe. */
  lemma SubmitSuggestionLacksApostrophe()
    ensures '\'' !in SubmitSuggestion
  {
    var a, b := "Please add submit button ", "on your form group.";
    assert '\'' !in a;
    assert '\'' !in b;
    assert SubmitSuggestion == a + b;
  }

  /** The keys use typographic quotes: the same message spelt with ASCII
      quotes does not select the image row. */
  lemma TypographicQuotesMatter()
    ensures FindInMessage(W3cTable, "An \"img\" element must have an \"alt\" attribute") != Some(0)
  {
    var m := "An \"img\" element must have an \"alt\" attribute";
    assert m[3] != ImgAlt.key[3];
    ContainsSameLength(m, ImgAlt.key);
  }
}
