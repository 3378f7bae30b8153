/** The WHATWG dictionary: one row per html-validate rule id the engine maps
    to a WCAG success criterion. */
module WhatwgDict {
  import opened Wrappers
  import opened Strings
  import opened RuleTable

  /** `WHATWGtoWCAG`, in source order. */
  const WhatwgTable: seq<Rule> := [
    AreaAlt, AriaHiddenBody, AriaLabelMisuse, EmptyHeading, EmptyTitle,
    HiddenFocusable, InputMissingLabel, MetaRefresh, MultipleLabeledControls, NoAutoplay,
    H30, H32, H36, H37, H63,
    H67, H71, LongTitle, HeadingLevel
  ]

  const AreaAlt := Rule("area-alt", Cite("WCAG 2.2", ["1.1.1", "2.4.4", "2.4.9"]),
      "'alt' attribute must be set and non-empty when the 'href' attribute is present (area-alt)",
      "Please add an 'alt' and 'href' attribute to your area element to ensure accessibility.")
  const AriaHiddenBody := Rule("aria-hidden-body", Cite("WCAG 2.2", ["1.3.1"]),
      "aria-hidden must not be used on <body>",
      "Please do not use aria-hidden attribute in the <body> element")
  const AriaLabelMisuse := Rule("aria-label-misuse", Cite("WCAG 2.2", ["4.1.2"]),
      "'aria-label' cannot be used on this element",
      "Please do not use aria-label on this element")
  const EmptyHeading := Rule("empty-heading", Cite("WCAG 2.2", ["2.4.6"]),
      "Headings cannot be empty.",
      "Please make sure to provide descriptive headings for your content.")
  const EmptyTitle := Rule("empty-title", Cite("WCAG 2.2", ["2.4.2"]),
      "Title cannot be empty.",
      "Please make sure to provide a descriptive title")
  const HiddenFocusable := Rule("hidden-focusable", Cite("WCAG 2.2", ["2.4.3", "4.1.2"]),
      "aria-hidden cannot be used on focusable elements",
      "Please remove aria-hidden or remove the element")
  const InputMissingLabel := Rule("input-missing-label", Cite("WCAG 2.2", ["1.1.1"]),
      "Input is missing a label",
      "Please add a label attribute to your input.")
  const MetaRefresh := Rule("meta-refresh", Cite("WCAG2 2.2", ["2.2.1", "2.2.4", "3.2.5"]),
      "Meta refresh should either be instant or not be used.",
      "Please remove it if not necessary or set it to 0 seconds.")
  const MultipleLabeledControls := Rule("multiple-labeled-controls", Cite("WCAG 2.2", ["1.3.1", "4.1.2"]),
      "Label must not be associated with multiple controls.",
      "Please make sure that each label is associated with only one control.")
  const NoAutoplay := Rule("no-autoplay", Cite("WCAG 2.2", ["1.4.2", "2.2.2"]),
      "Autoplay should not be used as it can be disruptive to users.",
      "Please remove the autoplay attribute from your media element.")
  const H30 := Rule("wcag/h30", Cite("WCAG 2.2", ["1.1.1", "2.4.4", "2.4.9"]),
      "Anchor link must have a text describing its purpose.",
      "Please add either an 'alt' tribute inside your anchor link or a text describing it.")
  const H32 := Rule("wcag/h32", Cite("WCAG 2.2", ["3.2.2"]),
      "Form elements must have a submit button",
      "Please add submit button on your form group.")
  const H36 := Rule("wcag/h36", Cite("WCAG 2.2", ["1.1.1"]),
      "Images used as submit buttons should have a non-empty alt attribute.",
      "Please add an 'alt' attribute to your image element to ensure accessibility: <img src='...' alt='Submit button'>")
  const H37 := Rule("wcag/h37", Cite("WCAG 2.2", ["1.1.1"]),
      "Image elements should have an alt attribute.",
      "Please add an 'alt' attribute to your image element to ensure accessibility: <img src='...' alt=>")
  const H63 := Rule("wcag/h63", Cite("WCAG 2.2", ["1.3.1"]),
      "Header elements must have content and be properly nested.",
      "Please add a valid scope attribute (row, col, rowgroup, colgroup) to your header element.")
  const H67 := Rule("wcag/h67", Cite("WCAG 2.2", ["1.1.1"]),
      "Image elements should have an alt attribute.",
      "Please add an 'alt' attribute to your image element to ensure accessibility: <img src='...' alt=>")
  const H71 := Rule("wcag/h71", Cite("WCAG 2.2", ["1.3.1", "3.3.2"]),
      "Fieldset must contain a legend element.",
      "Please add a <legend> element to your fieldset.")
  const LongTitle := Rule("long-title", Cite("WCAG 2.2", ["2.4.2"]),
      "Title text cannot be longer than 70 characters.",
      "Please limit your webpage title to below 70 characters for better SEO.")
  const HeadingLevel := Rule("heading-level", Cite("WCAG 2.2", ["2.4.10"]),
      "Heading level can only increase by one.",
      "Please check if your headings start at h1 and if it only increases one level at a time. (h1>h6)")

  lemma WhatwgIdsDistinct()
    ensures DistinctIds(WhatwgTable)
  {
    IdsDistinctA();
    IdsDistinctB();
    IdsDistinctC();
  }

  lemma IdsDistinctA()
    ensures forall i, j :: 0 <= i < 6 && i < j < |WhatwgTable| ==> WhatwgTable[i].ruleid != WhatwgTable[j].ruleid
  {
  }

  lemma IdsDistinctB()
    ensures forall i, j :: 6 <= i < 12 && i < j < |WhatwgTable| ==> WhatwgTable[i].ruleid != WhatwgTable[j].ruleid
  {
  }

  lemma IdsDistinctC()
    ensures forall i, j :: 12 <= i < j < |WhatwgTable| ==> WhatwgTable[i].ruleid != WhatwgTable[j].ruleid
  {
  }

  /** Exact-match lookup finds each row by its own id, and only that row. */
  lemma WhatwgLookupUnique()
    ensures forall i :: 0 <= i < |WhatwgTable| ==> FindById(WhatwgTable, WhatwgTable[i].ruleid) == Some(i)
  {
    WhatwgIdsDistinct();
    forall i | 0 <= i < |WhatwgTable|
      ensures FindById(WhatwgTable, WhatwgTable[i].ruleid) == Some(i)
    {
      FindByIdUnique(WhatwgTable, i);
    }
  }

  /** Every citation is "<version> | <criteria>" with no other bar and the
      criteria separated by `", "`. */
  lemma WhatwgCitationsWellFormed()
    ensures forall i :: 0 <= i < |WhatwgTable| ==> WellCited(WhatwgTable[i].wcag)
  {
    CitedRowsA();
    CitedRowsB();
    CitedRowsC();
    CitedRowsD();
  }

  lemma CitedRowsA()
    ensures WellCitedBy(AreaAlt.wcag, "WCAG 2.2", ["1.1.1", "2.4.4", "2.4.9"])
    ensures WellCitedBy(AriaHiddenBody.wcag, "WCAG 2.2", ["1.3.1"])
    ensures WellCitedBy(AriaLabelMisuse.wcag, "WCAG 2.2", ["4.1.2"])
    ensures WellCitedBy(EmptyHeading.wcag, "WCAG 2.2", ["2.4.6"])
    ensures WellCitedBy(EmptyTitle.wcag, "WCAG 2.2", ["2.4.2"])
  {
  }
  lemma CitedRowsB()
    ensures WellCitedBy(HiddenFocusable.wcag, "WCAG 2.2", ["2.4.3", "4.1.2"])
    ensures WellCitedBy(InputMissingLabel.wcag, "WCAG 2.2", ["1.1.1"])
    ensures WellCitedBy(MetaRefresh.wcag, "WCAG2 2.2", ["2.2.1", "2.2.4", "3.2.5"])
    ensures WellCitedBy(MultipleLabeledControls.wcag, "WCAG 2.2", ["1.3.1", "4.1.2"])
    ensures WellCitedBy(NoAutoplay.wcag, "WCAG 2.2", ["1.4.2", "2.2.2"])
  {
  }
  lemma CitedRowsC()
    ensures WellCitedBy(H30.wcag, "WCAG 2.2", ["1.1.1", "2.4.4", "2.4.9"])
    ensures WellCitedBy(H32.wcag, "WCAG 2.2", ["3.2.2"])
    ensures WellCitedBy(H36.wcag, "WCAG 2.2", ["1.1.1"])
    ensures WellCitedBy(H37.wcag, "WCAG 2.2", ["1.1.1"])
    ensures WellCitedBy(H63.wcag, "WCAG 2.2", ["1.3.1"])
  {
  }
  lemma CitedRowsD()
    ensures WellCitedBy(H67.wcag, "WCAG 2.2", ["1.1.1"])
    ensures WellCitedBy(H71.wcag, "WCAG 2.2", ["1.3.1", "3.3.2"])
    ensures WellCitedBy(LongTitle.wcag, "WCAG 2.2", ["2.4.2"])
    ensures WellCitedBy(HeadingLevel.wcag, "WCAG 2.2", ["2.4.10"])
  {
  }

  /** The `meta-refresh` citation spells out as the dictionary writes it. */
  lemma MetaRefreshCitation()
    ensures MetaRefresh.wcag == "WCAG2 2.2 | 2.2.1, 2.2.4, 3.2.5"
  {
    var cs := ["2.2.1", "2.2.4", "3.2.5"];
    assert cs[1..] == ["2.2.4", "3.2.5"] && cs[1..][1..] == ["3.2.5"];
    assert Join(cs, ", ") == "2.2.1, 2.2.4, 3.2.5";
  }

  /** A citation of one criterion spells out as the dictionary writes it. */
  lemma HeadingLevelCitation()
    ensures HeadingLevel.wcag == "WCAG 2.2 | 2.4.10"
  {
  }

  /** `wcag/h37` and `wcag/h67` are two ids for the same message pair. */
  lemma H37SameAsH67()
    ensures WhatwgTable[13].ruleid == "wcag/h37" && WhatwgTable[15].ruleid == "wcag/h67"
    ensures WhatwgTable[13].errorMsg == WhatwgTable[15].errorMsg
    ensures WhatwgTable[13].suggestMsg == WhatwgTable[15].suggestMsg
  {
  }

  /** The `meta-refresh` citation names the guideline "WCAG2 2.2". */
  lemma MetaRefreshVersion()
    ensures WhatwgTable[7].ruleid == "meta-refresh"
    ensures WhatwgTable[7].wcag[..12] == "WCAG2 2.2 | "
  {
  }
}
