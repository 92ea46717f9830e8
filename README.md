# Jharkhand Tourism Hub page script: a Dafny model

This project models the behaviour layer of a static tourism page, `script.js`. It covers the parts that carry logic:

- the in-page keyword search: query normalisation, the substring filter over the eight hard-coded records, and the results container;
- `updateActiveNav`, which styles the navigation button of one section as active and every other one as inactive;
- the debounced scroll handler of `initActiveNavHighlight`, which picks the tracked section under a probe line 100 pixels below the top of the viewport;
- `scrollToSection`, which scrolls so that a section starts just below the 80-pixel sticky header;
- the click handlers of navigation buttons, footer links, in-page hash links and search results;
- the mobile menu: the menu button, the nav buttons inside the menu, and the resize handler that closes the menu from 768 pixels up;
- the `popstate` (back button) handler;
- `debounce`, as a timer that each call replaces and the clock fires.

Modules and files:

| file | module | what it holds |
|---|---|---|
| `wrappers.dfy` | `Wrappers` | `Option` |
| `text.dfy` | `Text` | ASCII `toLowerCase`, `trim`, `includes`, and joining words with single spaces |
| `search.dfy` | `Search` | the records, the filter, the rendering, the search box as a class |
| `search_examples.dfy` | `SearchExamples` | the searches "waterfall", "temple" and "zoo" over the real records |
| `nav.dfy` | `ActiveNav` | `updateActiveNav` on a class holding an array of class sets |
| `scroll.dfy` | `Scrolling` | element rectangles, the scroll target, the probe-line scan, and the viewport as a class |
| `navigation.dfy` | `Navigation` | the event handlers that combine scrolling, nav styling and the search box |
| `menu.dfy` | `MobileMenu` | the menu panel's classes and the button icon, as a class |
| `debounce.dfy` | `Debounce` | the debounced function as a step function over events, and as a class |

State that the page changes in place is modelled as classes:

- the nav buttons' class lists are an `array<set<string>>`;
- the window has a mutable `scrollY`;
- the search box has a value, a listing and a `hidden` flag;
- the menu panel has a class set and an icon;
- the debounce closure has a pending timer.

Each method of these classes is specified by a pure function of the old state. The properties are proved about those functions.

## Model

| member | source | states |
|---|---|---|
| Text.ToLower | script.js:306 | the lower-cased text has the same length, turns every capital into its own lower-case letter, and leaves every other character as it was |
| Text.Trim | script.js:306 | the result is the text with a run of white space removed from each end, and it neither starts nor ends with white space |
| Text.TrimEmpty | script.js:306-308 | a text trims to the empty string exactly when it is all white space |
| Text.TrimIdempotent | script.js:306 | trimming twice is the same as trimming once |
| Text.Normalize | script.js:306 | the normalised query is the lower-cased input with a run of white space removed from each end; it has no capitals and no white space at either end |
| Text.NormalizeBlank | script.js:306-313 | a query normalises to empty, the case that clears the results, exactly when it is blank |
| Text.NormalizeIdempotent | script.js:306 | normalising a normalised query changes nothing |
| Text.Contains | script.js:331-332 | `includes` holds exactly when the query occurs at some offset of the text |
| Text.ContainsEmpty | script.js:331-332 | the empty query is included in every text |
| Text.AbsentChar | script.js:331-332 | a query cannot occur in a text that lacks one of its characters |
| Text.SplitAt | script.js:331-332 | a query without the separator occurs in `a + sep + b` only if it occurs in `a` or in `b` |
| Text.JoinContainsWord | script.js:320-327 | every keyword occurs in the record's keyword string |
| Text.JoinOneWord | script.js:320-327 | a one-word query occurs in a keyword string only if it occurs in one of its words |
| Search.Matches | script.js:330-333 | a record matches exactly when the query occurs at some offset of its lower-cased title or of its keyword string |
| Search.Filter | script.js:330-333 | the results are exactly the records whose lower-cased title or keyword string contains the query, and there are no more of them than records |
| Search.FilterInOrder | script.js:330-333 | the k-th result is the record at the k-th matching position, so the results keep the corpus order and repeat nothing |
| Search.FilterEmptyQuery | script.js:308-313 | the empty query would select every record, which is why the handler never searches for it |
| Search.FilterSingle | script.js:330-333 | when only one record matches, it is the whole result |
| Search.FilterNone | script.js:330-333 | when no record matches, the result is empty |
| Search.Render | script.js:337-360 | "No results found" is shown exactly when there are no results; otherwise there is one entry per result, in order, with its title and section |
| Search.PerformSearch | script.js:318-361 | "No results found" is shown exactly when no record matches; every entry shown is the title and section of a matching record, every matching record has its entry, and the k-th entry is the record at the k-th matching position; the container is never left empty |
| Search.RenderDescribesMatches | script.js:330-360 | the rendered search shows "No results found" exactly when nothing matches, and otherwise one entry per matching record, in corpus order, and nothing else |
| Search.QueryAsWritten | script.js:305-306 | the callback as written reads `value` from its receiver; with the global object as the receiver it throws a TypeError |
| Search.InputHandlerThrows | script.js:225-235 | as written, every debounced input event throws before any search, whatever was typed |
| Search.SearchBox.constructor | script.js:301-302 | the input starts empty and the container starts empty and hidden |
| Search.SearchBox.Type | script.js:305 | typing changes the input's value and nothing else |
| Search.SearchBox.OnInput | script.js:305-313 | a blank query empties and hides the container; any other query shows the outcome of the search for the normalised query; the container is never shown empty |
| Search.SearchBox.Dismiss | script.js:351-352 | the container is hidden with its entries in place, and the input is emptied |
| SearchExamples.WaterfallFindsHundru | script.js:319-343 | searching "waterfall" finds only Hundru Falls and lists one entry that points to `destinations` |
| SearchExamples.TempleFindsDeoghar | script.js:319-343 | searching "temple" finds only Deoghar and lists one entry that points to `destinations` |
| SearchExamples.ZooFindsNothing | script.js:319-359 | searching "zoo" finds nothing and shows "No results found" |
| ActiveNav.Highlighted | script.js:97-100 | the active branch: `active`, `bg-green-600` and `text-white` are set, `text-gray-600` is not, and every other class is kept |
| ActiveNav.Dimmed | script.js:101-104 | the inactive branch: `text-gray-600` is set, the other three are not, and every other class is kept |
| ActiveNav.Restyled | script.js:92-107 | a button carries `active`, `bg-green-600` and `text-white` exactly when its section is the argument, and `text-gray-600` exactly when it is not; other classes are kept |
| ActiveNav.ActiveAfterUpdate | script.js:92-107 | after an update the active buttons all belong to the argument's section, and there are none if no button has that section |
| ActiveNav.LatestCallDecides | script.js:92-107 | whatever section was active before, only the latest update decides the styling |
| ActiveNav.UpdateIdempotent | script.js:92-107 | updating twice to the same section is the same as updating once |
| ActiveNav.NavBar.constructor | script.js:93 | the buttons are listed with their sections and class sets |
| ActiveNav.NavBar.UpdateActiveNav | script.js:92-107 | the loop leaves every button's classes as `Restyled` of the old classes |
| Scrolling.InView | script.js:81-82 | viewport rectangles are the page layout shifted up by the scroll offset, each keeping its height |
| Scrolling.StraddlesInPage | script.js:135-136 | a section straddles the probe line exactly when its page extent contains the point 100 pixels below the top of the window |
| Scrolling.LastStraddling | script.js:130-140 | the scan yields "" when no section straddles the probe line, and then only (when no id is ""); otherwise it yields a straddling section with none after it |
| Scrolling.LastStraddlingPicks | script.js:130-140 | a straddling section with no straddling section after it is the one picked |
| Scrolling.PickCurrent | script.js:127-140 | the `forEach` loop ends with the last tracked section, in scan order, whose rectangle straddles line 100 |
| Scrolling.LaterSectionWins | script.js:127-140 | when travel information and accommodations both straddle the line and culture does not, accommodations wins |
| Scrolling.ScrollTarget | script.js:77-89 | there is no target exactly when there is no element; otherwise target + 80 − page offset is the element's viewport top |
| Scrolling.ScrollTargetLandsBelowHeader | script.js:80-87 | the target does not depend on the current scroll; at the target the element's top is 80 pixels from the top of the viewport |
| Scrolling.TargetIsPicked | script.js:77-140 | after scrolling to a tracked section that is tall enough, with the later ones below it, the scroll handler picks that section |
| Scrolling.Viewport.constructor | script.js:84 | the window starts with the given layout and scroll offset |
| Scrolling.Viewport.ScrollToSection | script.js:77-89 | an existing section ends up 80 pixels from the top of the viewport; with no such element the window does not move |
| Navigation.AfterFirst | script.js:408 | `substring(1)` drops the first character, and of the empty string gives "" |
| Navigation.NavigateTo | script.js:21-36 | a nav or footer click scrolls to the section if it exists, and restyles the nav for that section whether or not it exists |
| Navigation.OnHashLinkClick | script.js:115-121 | a hash link scrolls to its target unless the link is a bare "#" or no element has that id; the nav is not touched |
| Navigation.OnScroll | script.js:129-145 | the scroll callback restyles the nav for the picked section, and leaves it unchanged when no tracked section straddles the line |
| Navigation.OnPopState | script.js:406-412 | the back button restyles the nav for the hash's section only when the hash is non-empty and names an element; the window is not scrolled |
| Navigation.SelectSearchResult | script.js:346-354 | a result click scrolls to the result's section, restyles the nav for it, hides the results with their entries kept, and empties the input |
| Navigation.ScrollAfterNavigateAgrees | script.js:21-145 | after navigating to a tall enough tracked section, the scroll handler picks the same section, so the nav keeps the click's styling |
| MobileMenu.Closed | script.js:49-50 | `show` is removed and `hidden` is added; other classes are kept |
| MobileMenu.Opened | script.js:55-56 | `hidden` is removed and `show` is added; other classes are kept |
| MobileMenu.Toggled | script.js:45-61 | a press flips whether the menu is open, and leaves exactly one of `show` and `hidden` set, with the icon matching; other classes are kept |
| MobileMenu.ToggleTwice | script.js:45-61 | two presses restore a menu in which exactly one of the classes was set and the icon matched |
| MobileMenu.ToggleTwiceNeedsExclusive | script.js:45-61 | without that condition two presses need not restore the menu |
| MobileMenu.ClosedByNav | script.js:64-73 | a nav press inside the menu closes it with exactly one class set and draws the bars icon; other classes are kept |
| MobileMenu.Resized | script.js:396-403 | from 768 pixels up the menu is closed with exactly one class set and other classes kept; below that nothing changes; the icon is never touched |
| MobileMenu.HandlersKeepExclusive | script.js:45-73 | from a state with exactly one of `show` and `hidden`, every handler keeps exactly one |
| MobileMenu.ResizeLeavesCross | script.js:396-403 | closing an open menu by resizing leaves the cross icon on a closed menu, and the next press opens the menu again |
| MobileMenu.Menu.constructor | script.js:41-43 | the menu starts with the markup's classes and icon |
| MobileMenu.Menu.Toggle | script.js:45-61 | the button's handler moves the menu to `Toggled` of the old state |
| MobileMenu.Menu.CloseFromNav | script.js:64-73 | a mobile nav button's handler moves the menu to `ClosedByNav` of the old state |
| MobileMenu.Menu.OnResize | script.js:396-403 | the resize handler moves the menu to `Resized` of the old state |
| Debounce.Step | script.js:225-235 | a call replaces any pending timer with one due `wait` later and calls nothing; the clock reaching a due timer calls `func` once with its arguments and clears it; otherwise nothing changes |
| Debounce.BurstCallsNothing | script.js:225-235 | a burst of calls runs nothing and leaves one timer, for the last call's arguments, due `wait` after it |
| Debounce.QuietCallsNothing | script.js:225-235 | with nothing pending, the clock alone calls nothing |
| Debounce.FiresOnce | script.js:228-231 | once due, the pending call runs exactly once |
| Debounce.EarlyTickDoesNothing | script.js:233 | before the due time the clock changes nothing |
| Debounce.CallsBoundedByTriggers | script.js:225-235 | `func` runs no more often than the debounced function was called, and a timer pends only after a call |
| Debounce.PendingHoldsLatest | script.js:230-233 | the pending timer carries the arguments of the latest call |
| Debounce.RunSnoc | script.js:225-235 | running one more event extends a run by exactly one step |
| Debounce.CallUsesLatestArgs | script.js:228-233 | every call of `func` uses the arguments of the latest call before it |
| Debounce.CountTriggersCounts | script.js:227 | the count of calls is the number of positions at which the debounced function was called |
| Debounce.LatestArgs | script.js:227 | there are no latest arguments exactly when no call happened; otherwise they are the arguments of a call with no call after it |
| Debounce.Debouncer.constructor | script.js:225-226 | the closure starts with no timer |
| Debounce.Debouncer.Trigger | script.js:232-233 | a call moves the closure to `Step` of the old timer: one timer, for these arguments, due `wait` from now |
| Debounce.Debouncer.Tick | script.js:228-231 | the clock moves the closure to `Step` of the old timer and returns the call made, if any |

## Left out

- Scroll-triggered animations, lazy image loading, card hover effects and the extra CSS they inject (script.js lines 149-222): these are presentation only.
- The contact form (lines 238-262), notifications (lines 265-297) and the placeholder weather widget (lines 364-386): these build DOM content and hold no logic that other parts depend on.
- The `load`-time performance logging and the service-worker registration (lines 415-437): these are calls into browser APIs.
- Real time: `setTimeout` and `clearTimeout` become a pending timer, and the passing of time becomes clock events carrying a millisecond reading.
- Debounce.Step: timers due at the same instant, and the exact ordering of the event loop, are not modelled. A clock event runs the pending call once it is due.
- Geometry is in whole pixels. Floating-point coordinates are not modelled.
- Scrolling.Viewport.ScrollToSection: the smooth animation is treated as instantaneous. The browser's clamping of the target to the scrollable range is not modelled.
- Text.ToLower and Text.Trim: only ASCII letters are lower-cased, and only ASCII white space is trimmed. JavaScript's full Unicode case mapping and white-space set are not modelled.
- Search.Render: only the title and `data-section` of each entry are modelled, not the HTML markup around them.
- Each record's keyword string is written as its list of words joined by single spaces (`Text.Join`). That gives the same string as the page, and lets the worked searches be proved word by word.
- Search.SearchBox.constructor: that the input starts empty and the results container starts empty and hidden is taken from the page markup, which is not part of this model; the script only looks the two elements up.
- A missing `data-section` attribute (`null`) is not modelled. Sections are always strings.
- The absence of the menu button, the panel or its icon is not modelled. The code dereferences them without checking.
- The browser's own scroll restoration on `popstate` is not modelled. The handler itself does not scroll.
- Event registration (`DOMContentLoaded`, `addEventListener`) is not modelled. Each handler is a method that the browser is assumed to call.

## Findings

| source | as written | input that shows it | evidently intended | confidence | as-written member | corrected member |
|---|---|---|---|---|---|---|
| script.js:305-306 | `debounce` calls the wrapped function as `func(...args)`, with no receiver. The search callback reads `this.value`, so in a classic script `this` is the global object, `value` is undefined, and `toLowerCase` throws a TypeError. | typing any character into `#search-input` | the callback reads the search input's value, and the search runs on the normalised query | not executed | Search.InputHandlerThrows | Search.SearchBox.OnInput |
