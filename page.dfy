/**
 * The page's state as one object: the `.app-layout` markers, the sidebar and
 * its collapse button, the stored `sidebarCollapsed` flag, the lazily created
 * reveal tab, the `#results` container, the import text area and its status
 * line, and the mode radios. Each method is one event handler of the page.
 */
module Page {
  import opened Wrappers
  import opened Strings
  import HtmlEscape
  import MockSearch
  import ModeSelector

  /** A child of `#results`: a search result card, an imported-code card, or the empty-query notice. */
  datatype Child = ResultCard(title: string, desc: string) | ImportedCard(code: string) | EmptyNotice

  /**
   * Where keyboard focus is when an arrow key is pressed: the query input, the
   * import area, any other INPUT or TEXTAREA element (a radio of the group
   * included), or anywhere else.
   */
  datatype Focus = QueryInput | ImportArea | OtherTextField | Elsewhere

  const CollapsedGlyph: string := "\U{25B6}"
  const ExpandedGlyph: string := "\U{25C0}"
  const ImportWarning: string := "Please paste code or upload a file first."
  const ImportedMessage: string := "Imported \U{2713}"

  /** The value stored under `sidebarCollapsed` for a collapsed state. */
  function StoredFlag(collapsed: bool): string {
    if collapsed then "1" else "0"
  }

  /** `results.querySelectorAll('.result-card').length`: every child but the empty-query notice. */
  function CountResultCards(children: seq<Child>): (n: nat)
    ensures n <= |children|
    ensures n == 0 <==> forall i :: 0 <= i < |children| ==> children[i].EmptyNotice?
  {
    if children == [] then 0
    else (if children[0].EmptyNotice? then 0 else 1) + CountResultCards(children[1..])
  }

  /** One result card per item, in order. */
  function Cards(items: seq<MockSearch.ResultItem>): (cards: seq<Child>)
    ensures |cards| == |items|
    ensures forall i :: 0 <= i < |items| ==> cards[i] == ResultCard(items[i].title, items[i].desc)
  {
    if items == [] then []
    else Cards(items[..|items| - 1]) + [ResultCard(items[|items| - 1].title, items[|items| - 1].desc)]
  }

  /** What `#results` holds once the items are rendered: the notice for none, else their cards. */
  function Rendered(items: seq<MockSearch.ResultItem>): (shown: seq<Child>)
    ensures items == [] ==> shown == [EmptyNotice]
    ensures items != [] ==> |shown| == |items| && EmptyNotice !in shown
  {
    if items == [] then [EmptyNotice] else Cards(items)
  }

  /**
   * A search for a blank query shows only the notice and no result card; any
   * other query shows three result cards whose titles start with the topic.
   */
  lemma SearchRendering(mode: string, query: string)
    ensures var shown := Rendered(MockSearch.FakeSearchResults(mode, Trim(query)));
      (AllWhitespace(query) ==> shown == [EmptyNotice] && CountResultCards(shown) == 0)
      && (!AllWhitespace(query) ==>
            |shown| == 3 && CountResultCards(shown) == 3
            && forall i :: 0 <= i < 3 ==>
                 shown[i].ResultCard? && HasPrefix(shown[i].title, MockSearch.Topic(Trim(query))))
  {
    MockSearch.SearchOfTrimmedQuery(mode, query);
    var shown := Rendered(MockSearch.FakeSearchResults(mode, Trim(query)));
    if !AllWhitespace(query) {
      AllCardsCount(shown);
    }
  }

  /** The radio handler acts only with focus in the query input or the import area. */
  predicate RadioHandlerActs(focus: Focus)
  {
    focus == QueryInput || focus == ImportArea
  }

  /** The sidebar handler: Left collapses, Right expands, unless focus is in any text field. */
  function SidebarHandlerAction(focus: Focus, right: bool): Option<bool>
  {
    if focus == QueryInput || focus == ImportArea || focus == OtherTextField then None
    else Some(!right)
  }

  /** The two arrow-key handlers never both act on one key press, and outside text fields the sidebar one does. */
  lemma ArrowHandlersExclusive(focus: Focus, right: bool)
    ensures !(RadioHandlerActs(focus) && SidebarHandlerAction(focus, right).Some?)
    ensures SidebarHandlerAction(focus, right).Some? <==> focus == Elsewhere
    ensures SidebarHandlerAction(focus, right) == Some(true) <==> focus == Elsewhere && !right
  {
  }

  class Page {
    // `.app-layout`
    var importActive: bool
    var importCollapsed: bool
    var layoutCollapsed: bool
    // `.sidebar` and `#collapseBtn`
    var sidebarCollapsed: bool
    var toggleGlyph: string
    var ariaExpanded: bool
    // `localStorage`: whether it can be used at all, and the `sidebarCollapsed` entry
    const storageUsable: bool
    var stored: Option<string>
    // `#sidebarTab`: how many were created, `show`, `aria-hidden`
    var tabCount: nat
    var tabShown: bool
    var tabAriaHidden: bool
    // `#results`
    var results: seq<Child>
    var resultsShown: bool
    // `#importArea` and `#importStatus`
    var importText: string
    var status: string
    // the `plan` radio group and the legacy mode buttons
    var radios: seq<ModeSelector.Radio>
    const buttons: seq<ModeSelector.ModeButton>

    /** The two import layout markers are never both set. */
    ghost predicate ImportMarkersExclusive()
      reads this`importActive, this`importCollapsed
    {
      !(importActive && importCollapsed)
    }

    /** Everything the sidebar state drives agrees with the `collapsed` marker on `.app-layout`. */
    ghost predicate SidebarInSync()
      reads this`layoutCollapsed, this`sidebarCollapsed, this`toggleGlyph, this`ariaExpanded, this`stored,
            this`tabCount, this`tabShown, this`tabAriaHidden
    {
      sidebarCollapsed == layoutCollapsed
      && ariaExpanded == !layoutCollapsed
      && toggleGlyph == (if layoutCollapsed then CollapsedGlyph else ExpandedGlyph)
      && (storageUsable ==> stored == Some(StoredFlag(layoutCollapsed)))
      && tabCount == 1
      && tabShown == layoutCollapsed
      && tabAriaHidden == !layoutCollapsed
    }

    ghost predicate Valid()
      reads this`importActive, this`importCollapsed, this`radios,
            this`layoutCollapsed, this`sidebarCollapsed, this`toggleGlyph, this`ariaExpanded, this`stored,
            this`tabCount, this`tabShown, this`tabAriaHidden
    {
      ImportMarkersExclusive() && SidebarInSync() && ModeSelector.AtMostOneChecked(radios)
    }

    /** The part of the state the sidebar handlers own. */
    ghost function SidebarState(): (bool, bool, string, bool, Option<string>, nat, bool, bool)
      reads this`layoutCollapsed, this`sidebarCollapsed, this`toggleGlyph, this`ariaExpanded, this`stored,
            this`tabCount, this`tabShown, this`tabAriaHidden
    {
      (layoutCollapsed, sidebarCollapsed, toggleGlyph, ariaExpanded, stored, tabCount, tabShown, tabAriaHidden)
    }

    /** The part of the state the import and search handlers own. */
    ghost function ContentState(): (bool, bool, seq<Child>, bool, string, string, seq<ModeSelector.Radio>)
      reads this`importActive, this`importCollapsed, this`results, this`resultsShown, this`importText,
            this`status, this`radios
    {
      (importActive, importCollapsed, results, resultsShown, importText, status, radios)
    }

    /**
     * The page as the markup leaves it, then the load sequence: a stored
     * "1" is reset to "0" and the sidebar is expanded, whatever was stored.
     */
    constructor Load(saved: Option<string>, storageUsable: bool, radios: seq<ModeSelector.Radio>,
                     buttons: seq<ModeSelector.ModeButton>)
      requires ModeSelector.AtMostOneChecked(radios)
      ensures Valid()
      ensures !layoutCollapsed && !sidebarCollapsed && ariaExpanded && !tabShown && tabAriaHidden
      ensures tabCount == 1
      ensures stored == if storageUsable then Some("0") else saved
      ensures !importActive && !importCollapsed && results == [] && !resultsShown
      ensures importText == [] && status == []
      ensures this.radios == radios && this.buttons == buttons && this.storageUsable == storageUsable
    {
      importActive, importCollapsed, layoutCollapsed := false, false, false;
      sidebarCollapsed, toggleGlyph, ariaExpanded := false, ExpandedGlyph, true;
      this.storageUsable := storageUsable;
      stored := saved;
      tabCount, tabShown, tabAriaHidden := 0, false, true;
      results, resultsShown := [], false;
      importText, status := [], [];
      this.radios, this.buttons := radios, buttons;
      new;
      if storageUsable && saved == Some("1") {
        stored := Some("0");
      }
      ApplySidebarState(false);
    }

    /**
     * `ensureSidebarTab()`: creates the reveal tab the first time, and never a
     * second one; it changes nothing but the tab.
     */
    method EnsureSidebarTab()
      requires tabCount <= 1
      modifies this`tabCount, this`tabShown, this`tabAriaHidden
      ensures tabCount == 1
      ensures old(tabCount) == 1 ==> tabShown == old(tabShown) && tabAriaHidden == old(tabAriaHidden)
      ensures old(tabCount) == 0 ==> !tabShown && tabAriaHidden
    {
      if tabCount == 0 {
        tabCount := 1;
        tabShown := false;
        tabAriaHidden := true;
      }
    }

    /**
     * `applySidebarState(collapsed)`: the sidebar's fields and the tab follow
     * `collapsed`; the import pane, the results and the radios are outside its frame.
     */
    method ApplySidebarState(collapsed: bool)
      requires tabCount <= 1
      modifies this`layoutCollapsed, this`sidebarCollapsed, this`toggleGlyph, this`ariaExpanded, this`stored,
               this`tabCount, this`tabShown, this`tabAriaHidden
      ensures layoutCollapsed == collapsed && SidebarInSync()
      ensures !storageUsable ==> stored == old(stored)
    {
      layoutCollapsed := collapsed;
      sidebarCollapsed := collapsed;
      toggleGlyph := if collapsed then CollapsedGlyph else ExpandedGlyph;
      ariaExpanded := !collapsed;
      if storageUsable {
        stored := Some(StoredFlag(collapsed));
      }
      EnsureSidebarTab();
      // the tab's `show` class and `aria-hidden` follow the new state
      tabShown := collapsed;
      tabAriaHidden := !collapsed;
    }

    /** A click on the collapse button flips the sidebar. */
    method ToggleSidebar()
      requires Valid()
      modifies this`layoutCollapsed, this`sidebarCollapsed, this`toggleGlyph, this`ariaExpanded, this`stored,
               this`tabCount, this`tabShown, this`tabAriaHidden
      ensures Valid()
      ensures layoutCollapsed == !old(layoutCollapsed)
      ensures !storageUsable ==> stored == old(stored)
      ensures ContentState() == old(ContentState())
    {
      ApplySidebarState(!layoutCollapsed);
    }

    /** A click on the reveal tab always expands the sidebar. */
    method RevealSidebar()
      requires Valid()
      modifies this`layoutCollapsed, this`sidebarCollapsed, this`toggleGlyph, this`ariaExpanded, this`stored,
               this`tabCount, this`tabShown, this`tabAriaHidden
      ensures Valid()
      ensures !layoutCollapsed && !tabShown
      ensures !storageUsable ==> stored == old(stored)
      ensures ContentState() == old(ContentState())
    {
      ApplySidebarState(false);
    }

    /** `setImportActive(active)`: `active` sets the wide-import marker and clears the collapsed one. */
    method SetImportActive(active: bool)
      requires Valid()
      modifies this`importActive, this`importCollapsed
      ensures Valid()
      ensures importActive == active
      ensures importCollapsed == (old(importCollapsed) && !active)
      ensures SidebarState() == old(SidebarState())
      ensures results == old(results) && resultsShown == old(resultsShown)
      ensures importText == old(importText) && status == old(status) && radios == old(radios)
    {
      importActive := active;
      if active {
        importCollapsed := false;
      }
    }

    /** Focus on the import area widens the import pane. */
    method FocusImportArea()
      requires Valid()
      modifies this`importActive, this`importCollapsed
      ensures Valid()
      ensures importActive && !importCollapsed
      ensures SidebarState() == old(SidebarState())
      ensures results == old(results) && resultsShown == old(resultsShown)
      ensures importText == old(importText) && status == old(status) && radios == old(radios)
    {
      SetImportActive(true);
    }

    /** An edit of the import area: the pane stays wide while there is text or focus. */
    method EditImportArea(text: string, focused: bool)
      requires Valid()
      modifies this`importActive, this`importCollapsed, this`importText
      ensures Valid()
      ensures importText == text
      ensures importActive == (Trim(text) != [] || focused)
      ensures importCollapsed == (old(importCollapsed) && !importActive)
      ensures SidebarState() == old(SidebarState())
      ensures results == old(results) && resultsShown == old(resultsShown)
      ensures status == old(status) && radios == old(radios)
    {
      importText := text;
      SetImportActive(Trim(importText) != [] || focused);
    }

    /** Leaving the import area narrows the pane again only when it holds no text. */
    method BlurImportArea()
      requires Valid()
      modifies this`importActive, this`importCollapsed
      ensures Valid()
      ensures importActive == (Trim(importText) != [])
      ensures importCollapsed == (old(importCollapsed) && !importActive)
      ensures SidebarState() == old(SidebarState())
      ensures results == old(results) && resultsShown == old(resultsShown)
      ensures importText == old(importText) && status == old(status) && radios == old(radios)
    {
      SetImportActive(Trim(importText) != []);
    }

    /** A file's text, once read, replaces the import text; the layout is left alone. */
    method LoadFile(name: string, contents: string)
      requires Valid()
      modifies this`importText, this`status
      ensures Valid()
      ensures importText == contents && status == "Loaded " + name
      ensures SidebarState() == old(SidebarState())
      ensures importActive == old(importActive) && importCollapsed == old(importCollapsed)
      ensures results == old(results) && resultsShown == old(resultsShown) && radios == old(radios)
    {
      importText := contents;
      status := "Loaded " + name;
    }

    /**
     * The Import button. Blank text only sets the warning. Otherwise one card
     * holding the escaped text goes in front of the results and the import
     * pane shrinks.
     */
    method Import()
      requires Valid()
      modifies this`results, this`resultsShown, this`status, this`importActive, this`importCollapsed
      ensures Valid()
      ensures Trim(importText) == [] ==>
        status == ImportWarning && results == old(results) && resultsShown == old(resultsShown)
        && importActive == old(importActive) && importCollapsed == old(importCollapsed)
      ensures Trim(importText) != [] ==>
        results == [ImportedCard(HtmlEscape.EscapeHtml(importText))] + old(results)
        && resultsShown && status == ImportedMessage
        && !importActive && importCollapsed
      ensures importText == old(importText) && radios == old(radios)
      ensures SidebarState() == old(SidebarState())
    {
      var code := importText;
      if Trim(code) == [] {
        status := ImportWarning;
        return;
      }
      PrependCard(ImportedCard(HtmlEscape.EscapeHtml(code)));
    }

    /** The committed import: the card goes first, results show, and the pane switches from active to collapsed. */
    method PrependCard(card: Child)
      requires Valid()
      modifies this`results, this`resultsShown, this`status, this`importActive, this`importCollapsed
      ensures Valid()
      ensures results == [card] + old(results) && resultsShown && status == ImportedMessage
      ensures !importActive && importCollapsed
    {
      results := [card] + results;
      resultsShown := true;
      status := ImportedMessage;
      importActive := false;
      importCollapsed := true;
    }

    /**
     * The Remove button of the imported card at `i`: the card goes, and the
     * collapsed import marker goes too once no result card is left.
     */
    method RemoveImported(i: nat)
      requires Valid()
      requires i < |results| && results[i].ImportedCard?
      modifies this`results, this`importCollapsed
      ensures Valid()
      ensures results == old(results[..i] + results[i + 1..])
      ensures importCollapsed == (old(importCollapsed) && CountResultCards(results) > 0)
      ensures CountResultCards(results) == CountResultCards(old(results)) - 1
      ensures importActive == old(importActive) && resultsShown == old(resultsShown)
      ensures importText == old(importText) && status == old(status) && radios == old(radios)
      ensures SidebarState() == old(SidebarState())
    {
      CountRemovesCard(results, i);
      results := results[..i] + results[i + 1..];
      var remaining := CountResultCards(results);
      if remaining == 0 {
        importCollapsed := false;
      }
    }

    /**
     * A search, with its delay left out: the mode is read, the results are
     * cleared, and either the empty-query notice or one card per generated
     * item is appended in order.
     */
    method Search(query: string)
      requires Valid()
      modifies this`results, this`resultsShown
      ensures Valid()
      ensures results == Rendered(MockSearch.FakeSearchResults(ModeSelector.GetActiveMode(radios, buttons), Trim(query)))
      ensures resultsShown
      ensures importActive == old(importActive) && importCollapsed == old(importCollapsed)
      ensures importText == old(importText) && status == old(status) && radios == old(radios)
      ensures SidebarState() == old(SidebarState())
    {
      resultsShown := true;
      ShowResults(query);
    }

    /** The search proper: the trimmed query and the current mode pick the items that are rendered. */
    method ShowResults(query: string)
      modifies this`results
      ensures results == Rendered(MockSearch.FakeSearchResults(ModeSelector.GetActiveMode(radios, buttons), Trim(query)))
    {
      var q := Trim(query);
      var mode := ModeSelector.GetActiveMode(radios, buttons);
      results := [];
      RenderResults(MockSearch.FakeSearchResults(mode, q));
    }

    /** The delayed part of a search: the notice for no items, else one card per item appended in order. */
    method RenderResults(items: seq<MockSearch.ResultItem>)
      modifies this`results
      ensures results == Rendered(items)
    {
      results := [];
      if |items| == 0 {
        results := [EmptyNotice];
        return;
      }
      for k := 0 to |items|
        invariant results == Cards(items[..k])
      {
        assert items[..k + 1][..k] == items[..k];
        results := results + [ResultCard(items[k].title, items[k].desc)];
      }
      assert items[..|items|] == items;
    }

    /**
     * The radio group's arrow-key listener. With focus in the query input or
     * the import area and a radio checked, the neighbouring radio is checked;
     * its `change` listener then moves focus to the query input, so leaving the
     * import area runs that area's blur handler.
     */
    method RadioKey(focus: Focus, right: bool)
      requires Valid()
      modifies this`radios, this`importActive, this`importCollapsed
      ensures Valid()
      ensures radios == if |old(radios)| > 0 && RadioHandlerActs(focus)
                        then ModeSelector.CycleRadios(old(radios), right) else old(radios)
      ensures focus == ImportArea && ModeSelector.FindChecked(old(radios)) != -1 ==>
        importActive == (Trim(importText) != []) && importCollapsed == (old(importCollapsed) && !importActive)
      ensures !(focus == ImportArea && ModeSelector.FindChecked(old(radios)) != -1) ==>
        importActive == old(importActive) && importCollapsed == old(importCollapsed)
      ensures SidebarState() == old(SidebarState())
      ensures results == old(results) && resultsShown == old(resultsShown)
      ensures importText == old(importText) && status == old(status)
    {
      if RadioHandlerActs(focus) && ModeSelector.FindChecked(radios) != -1 {
        ModeSelector.CycleRadiosKeepsGroup(radios, right);
        radios := ModeSelector.CycleRadios(radios, right);
        if focus == ImportArea {
          BlurImportArea();
        }
      }
    }

    /** The sidebar's arrow-key listener: outside every text field Left collapses and Right expands. */
    method SidebarKey(focus: Focus, right: bool)
      requires Valid()
      modifies this`layoutCollapsed, this`sidebarCollapsed, this`toggleGlyph, this`ariaExpanded, this`stored,
               this`tabCount, this`tabShown, this`tabAriaHidden
      ensures Valid()
      ensures focus == Elsewhere ==> layoutCollapsed == !right
      ensures focus != Elsewhere ==> SidebarState() == old(SidebarState())
      ensures !storageUsable ==> stored == old(stored)
      ensures ContentState() == old(ContentState())
    {
      var action := SidebarHandlerAction(focus, right);
      if action.Some? {
        ApplySidebarState(action.value);
      }
    }

    /**
     * An arrow key reaches the radio listener first and then the sidebar
     * listener. The radio listener only changes focus from the import area to
     * the query input, and neither counts as "elsewhere" for the sidebar.
     */
    method ArrowKey(focus: Focus, right: bool)
      requires Valid()
      modifies this`radios, this`importActive, this`importCollapsed,
               this`layoutCollapsed, this`sidebarCollapsed, this`toggleGlyph, this`ariaExpanded, this`stored,
               this`tabCount, this`tabShown, this`tabAriaHidden
      ensures Valid()
      ensures radios == if |old(radios)| > 0 && RadioHandlerActs(focus)
                        then ModeSelector.CycleRadios(old(radios), right) else old(radios)
      ensures focus == ImportArea && ModeSelector.FindChecked(old(radios)) != -1 ==>
        importActive == (Trim(importText) != []) && importCollapsed == (old(importCollapsed) && !importActive)
      ensures !(focus == ImportArea && ModeSelector.FindChecked(old(radios)) != -1) ==>
        importActive == old(importActive) && importCollapsed == old(importCollapsed)
      ensures focus == Elsewhere ==> layoutCollapsed == !right
      ensures focus != Elsewhere ==> SidebarState() == old(SidebarState())
      ensures !storageUsable ==> stored == old(stored)
      ensures results == old(results) && resultsShown == old(resultsShown)
      ensures importText == old(importText) && status == old(status)
    {
      RadioKey(focus, right);
      SidebarKey(focus, right);
    }
  }

  lemma {:induction false} CountResultCardsAppend(a: seq<Child>, b: seq<Child>)
    ensures CountResultCards(a + b) == CountResultCards(a) + CountResultCards(b)
  {
    if a == [] {
      assert a + b == b;
    } else {
      assert (a + b)[1..] == a[1..] + b;
      CountResultCardsAppend(a[1..], b);
    }
  }

  /** Taking a card out of the results lowers the card count by exactly one. */
  lemma CountRemovesCard(children: seq<Child>, i: nat)
    requires i < |children| && !children[i].EmptyNotice?
    ensures CountResultCards(children[..i] + children[i + 1..]) == CountResultCards(children) - 1
  {
    assert children == children[..i] + ([children[i]] + children[i + 1..]);
    CountResultCardsAppend(children[..i], [children[i]] + children[i + 1..]);
    CountResultCardsAppend(children[..i], children[i + 1..]);
    assert ([children[i]] + children[i + 1..])[1..] == children[i + 1..];
  }

  lemma {:induction false} AllCardsCount(children: seq<Child>)
    requires forall i :: 0 <= i < |children| ==> children[i].ResultCard?
    ensures CountResultCards(children) == |children|
  {
    if children != [] {
      AllCardsCount(children[1..]);
    }
  }
}
