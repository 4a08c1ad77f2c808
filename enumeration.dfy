/**
 * Invoice enumeration (`get_invoice_ids`): every listing view contributes the
 * IDs found in its invoice links to one set, and the pagination control decides
 * whether another view follows.
 */
module Enumeration {
  import opened Wrappers
  import opened Chars

  /** The path segment that precedes an invoice ID in a link. */
  const InvoicesSegment: string := "/invoices/"

  /** The pagination "next" control, the last button in the `div.join` container. */
  datatype NextState = Absent | Disabled | Enabled

  /** One listing view: the `href` attribute of each anchor whose href contains
      `/invoices/`, in document order, and the state of the next control. */
  datatype Page = Page(hrefs: seq<string>, next: NextState)

  predicate EndsWith(s: string, suffix: string) {
    |suffix| <= |s| && s[|s| - |suffix|..] == suffix
  }

  /** The length of the run of ASCII digits at the end of `s`. */
  function TrailingDigitCount(s: string): (n: nat)
    ensures n <= |s|
  {
    if s != [] && IsAsciiDigit(s[|s| - 1]) then TrailingDigitCount(s[..|s| - 1]) + 1 else 0
  }

  /** The trailing run is all digits and is preceded by a non-digit, if by anything. */
  lemma {:induction false} TrailingDigitCountMaximal(s: string)
    ensures var n := TrailingDigitCount(s);
      AllDigits(s[|s| - n..]) && (n < |s| ==> !IsAsciiDigit(s[|s| - 1 - n]))
  {
    if s != [] && IsAsciiDigit(s[|s| - 1]) {
      var t := s[..|s| - 1];
      TrailingDigitCountMaximal(t);
      var n := TrailingDigitCount(t);
      assert s[|s| - 1 - n..] == t[|t| - n..] + [s[|s| - 1]];
      if n + 1 < |s| { assert s[|s| - 2 - n] == t[|t| - 1 - n]; }
    }
  }

  /** A run of digits preceded by a non-digit is exactly the trailing run. */
  lemma TrailingDigitCountExact(s: string, m: nat)
    requires m <= |s| && AllDigits(s[|s| - m..])
    requires m < |s| ==> !IsAsciiDigit(s[|s| - 1 - m])
    ensures TrailingDigitCount(s) == m
  {
    TrailingDigitCountMaximal(s);
  }

  /** Python's `$` (without MULTILINE) also matches just before one final newline. */
  function DropFinalNewline(h: string): string {
    if h != [] && h[|h| - 1] == '\n' then h[..|h| - 1] else h
  }

  /** `re.search(r'/invoices/(\d+)$', h)` followed by `match.group(1)`. */
  function ExtractId(h: string): Option<string> {
    var s := DropFinalNewline(h);
    var n := TrailingDigitCount(s);
    if n > 0 && EndsWith(s[..|s| - n], InvoicesSegment) then Some(s[|s| - n..]) else None
  }

  /** An href names invoice `id` when it ends with `/invoices/` and then `id`,
      optionally followed by one newline, and `id` is a non-empty digit run. */
  predicate NamesInvoice(h: string, id: string) {
    id != [] && AllDigits(id)
    && (EndsWith(h, InvoicesSegment + id) || EndsWith(h, InvoicesSegment + id + "\n"))
  }

  /** A suffix `p + q` splits into the suffix `q` preceded by `p`. */
  lemma EndsWithSplit(s: string, p: string, q: string)
    requires EndsWith(s, p + q)
    ensures s[|s| - |q|..] == q
    ensures s[..|s| - |q|] == s[..|s| - |q| - |p|] + p
  {
  }

  /** Appending the same text to both sides keeps a suffix a suffix. */
  lemma EndsWithAppend(s: string, t: string, x: string)
    requires EndsWith(s, t)
    ensures EndsWith(s + x, t + x)
  {
  }

  /** A suffix ending in `c` leaves, once `c` is dropped, the rest as a suffix. */
  lemma EndsWithDropLast(h: string, t: string, c: char)
    requires EndsWith(h, t + [c])
    ensures h[|h| - 1] == c && EndsWith(h[..|h| - 1], t)
  {
  }

  lemma ExtractIdFromSuffix(s: string, id: string)
    requires id != [] && AllDigits(id) && EndsWith(s, InvoicesSegment + id)
    ensures TrailingDigitCount(s) == |id|
    ensures EndsWith(s[..|s| - |id|], InvoicesSegment)
    ensures s[|s| - |id|..] == id
  {
    EndsWithSplit(s, InvoicesSegment, id);
    var m := |s| - |id|;
    var p := s[..m - |InvoicesSegment|];
    assert s[..m] == p + InvoicesSegment;
    assert s[m - 1] == '/' by {
      assert s[m - 1] == s[..m][m - 1];
      assert (p + InvoicesSegment)[m - 1] == InvoicesSegment[|InvoicesSegment| - 1];
    }
    assert (p + InvoicesSegment)[|p + InvoicesSegment| - |InvoicesSegment|..] == InvoicesSegment;
    TrailingDigitCountExact(s, |id|);
  }

  /** What the matcher extracts is named by the href. */
  lemma ExtractIdSound(h: string, id: string)
    requires ExtractId(h) == Some(id)
    ensures NamesInvoice(h, id)
  {
    var s := DropFinalNewline(h);
    var n := TrailingDigitCount(s);
    var p := s[..|s| - n];
    TrailingDigitCountMaximal(s);
    assert s == p + id;
    EndsWithAppend(p, InvoicesSegment, id);
    if s != h {
      assert h == s + "\n";
      EndsWithAppend(s, InvoicesSegment + id, "\n");
    }
  }

  /** Extraction from the trimmed href `s`, once no final newline is left to drop. */
  lemma ExtractFromTrimmed(h: string, s: string, id: string)
    requires id != [] && AllDigits(id) && EndsWith(s, InvoicesSegment + id)
    requires s == DropFinalNewline(h)
    ensures ExtractId(h) == Some(id)
  {
    ExtractIdFromSuffix(s, id);
  }

  /** An ID the href names is what the matcher extracts. */
  lemma ExtractIdComplete(h: string, id: string)
    requires NamesInvoice(h, id)
    ensures ExtractId(h) == Some(id)
  {
    if EndsWith(h, InvoicesSegment + id) {
      var t := InvoicesSegment + id;
      assert h[|h| - 1] == t[|t| - 1] == id[|id| - 1];
      assert IsAsciiDigit(id[|id| - 1]);
      ExtractFromTrimmed(h, h, id);
    } else {
      EndsWithDropLast(h, InvoicesSegment + id, '\n');
      ExtractFromTrimmed(h, h[..|h| - 1], id);
    }
  }

  /** The matcher extracts exactly the IDs an href names, and nothing from
      an href that names none. */
  lemma ExtractIdCorrect(h: string, id: string)
    ensures ExtractId(h) == Some(id) <==> NamesInvoice(h, id)
  {
    if ExtractId(h) == Some(id) {
      ExtractIdSound(h, id);
    }
    if NamesInvoice(h, id) {
      ExtractIdComplete(h, id);
    }
  }

  /** The union of `f` over the elements of `xs`, taken in order. */
  function UnionOver<T>(xs: seq<T>, f: T -> set<string>): set<string> {
    if xs == [] then {} else UnionOver(xs[..|xs| - 1], f) + f(xs[|xs| - 1])
  }

  lemma {:induction false} UnionOverMembers<T>(xs: seq<T>, f: T -> set<string>, id: string)
    ensures id in UnionOver(xs, f) <==> exists i :: 0 <= i < |xs| && id in f(xs[i])
  {
    if xs != [] {
      var init := xs[..|xs| - 1];
      UnionOverMembers(init, f, id);
      assert forall i :: 0 <= i < |init| ==> init[i] == xs[i];
    }
  }

  /** The ID one href contributes: the match, if there is one. */
  function LinkIds(h: string): set<string> {
    if ExtractId(h).Some? then {ExtractId(h).value} else {}
  }

  /** The IDs contributed by a sequence of hrefs (the inner `for` loop). */
  function IdsOf(hrefs: seq<string>): set<string> {
    if hrefs == [] then {} else IdsOf(hrefs[..|hrefs| - 1]) + LinkIds(hrefs[|hrefs| - 1])
  }

  lemma {:induction false} IdsOfIsUnion(hrefs: seq<string>)
    ensures IdsOf(hrefs) == UnionOver(hrefs, LinkIds)
  {
    if hrefs != [] {
      IdsOfIsUnion(hrefs[..|hrefs| - 1]);
    }
  }

  /** An ID is contributed exactly when some href in the sequence names it. */
  lemma IdsOfMembers(hrefs: seq<string>, id: string)
    ensures id in IdsOf(hrefs) <==> exists k :: 0 <= k < |hrefs| && ExtractId(hrefs[k]) == Some(id)
  {
    IdsOfIsUnion(hrefs);
    UnionOverMembers(hrefs, LinkIds, id);
  }

  /** The IDs collected from a sequence of listing views. */
  function CollectIds(pages: seq<Page>): set<string> {
    if pages == [] then {} else CollectIds(pages[..|pages| - 1]) + IdsOf(pages[|pages| - 1].hrefs)
  }

  lemma {:induction false} CollectIdsIsUnion(pages: seq<Page>)
    ensures CollectIds(pages) == UnionOver(pages, (p: Page) => IdsOf(p.hrefs))
  {
    if pages != [] {
      CollectIdsIsUnion(pages[..|pages| - 1]);
    }
  }

  /** An ID is collected exactly when some of the views contributes it. */
  lemma CollectIdsViews(pages: seq<Page>, id: string)
    ensures id in CollectIds(pages) <==> exists i :: 0 <= i < |pages| && id in IdsOf(pages[i].hrefs)
  {
    CollectIdsIsUnion(pages);
    UnionOverMembers(pages, (p: Page) => IdsOf(p.hrefs), id);
  }

  /** An ID is collected exactly when the matcher extracts it from some link
      on some of the views. */
  lemma CollectIdsMembers(pages: seq<Page>, id: string)
    ensures id in CollectIds(pages) <==>
      exists i, k :: 0 <= i < |pages| && 0 <= k < |pages[i].hrefs| && ExtractId(pages[i].hrefs[k]) == Some(id)
  {
    CollectIdsViews(pages, id);
    if id in CollectIds(pages) {
      var i :| 0 <= i < |pages| && id in IdsOf(pages[i].hrefs);
      IdsOfMembers(pages[i].hrefs, id);
    } else {
      forall i, k | 0 <= i < |pages| && 0 <= k < |pages[i].hrefs|
        ensures ExtractId(pages[i].hrefs[k]) != Some(id)
      {
        IdsOfMembers(pages[i].hrefs, id);
      }
    }
  }

  /** Every collected ID is a non-empty run of ASCII digits, so it holds no path separator. */
  lemma CollectedIdsAreDigits(pages: seq<Page>, id: string)
    requires id in CollectIds(pages)
    ensures id != [] && AllDigits(id) && '/' !in id
  {
    CollectIdsMembers(pages, id);
    var i, k :| 0 <= i < |pages| && 0 <= k < |pages[i].hrefs| && ExtractId(pages[i].hrefs[k]) == Some(id);
    ExtractIdSound(pages[i].hrefs[k], id);
  }

  /** The collection only grows as more views are visited. */
  lemma {:induction false} CollectIdsGrows(pages: seq<Page>, i: nat, j: nat)
    requires i <= j <= |pages|
    ensures CollectIds(pages[..i]) <= CollectIds(pages[..j])
    decreases j - i
  {
    if i < j {
      CollectIdsGrows(pages, i, j - 1);
      assert pages[..j][..j - 1] == pages[..j - 1];
    }
  }

  /** A view adds nothing exactly when all its IDs were seen before: repeats are absorbed. */
  lemma RepeatedIdsAbsorbed(pages: seq<Page>, p: Page)
    ensures CollectIds(pages + [p]) == CollectIds(pages) <==> IdsOf(p.hrefs) <= CollectIds(pages)
  {
    assert (pages + [p])[..|pages|] == pages;
  }

  /** Some view in the sequence ends the listing (its next control is absent or disabled). */
  predicate HasLastPage(pages: seq<Page>) {
    exists k :: 0 <= k < |pages| && pages[k].next != Enabled
  }

  /** The index of the view at which the loop stops: the first whose next
      control is absent or disabled. */
  function StopIndex(pages: seq<Page>): (k: nat)
    requires HasLastPage(pages)
    ensures k < |pages| && pages[k].next != Enabled
    ensures forall j :: 0 <= j < k ==> pages[j].next == Enabled
  {
    if pages[0].next != Enabled then 0
    else
      var w :| 0 <= w < |pages| && pages[w].next != Enabled;
      assert pages[1..][w - 1] == pages[w];
      1 + StopIndex(pages[1..])
  }

  /** Where the loop stops depends only on the next controls, never on the
      links: a view that contributes no new ID does not end the listing. */
  lemma {:induction false} StopIndexIgnoresLinks(pages: seq<Page>, other: seq<Page>)
    requires HasLastPage(pages) && |other| == |pages|
    requires forall k :: 0 <= k < |pages| ==> other[k].next == pages[k].next
    ensures HasLastPage(other) && StopIndex(other) == StopIndex(pages)
  {
  }

  /** A link that ends in `/invoices/` and a digit run yields that run. */
  lemma ExtractsTrailingId(id: string)
    requires id != [] && AllDigits(id)
    ensures ExtractId(InvoicesSegment + id) == Some(id)
  {
    ExtractIdCorrect(InvoicesSegment + id, id);
  }

  /** When every link names an invoice, the IDs they contribute are exactly those. */
  lemma IdsOfNamedLinks(hrefs: seq<string>, names: seq<string>)
    requires |hrefs| == |names|
    requires forall k :: 0 <= k < |hrefs| ==> ExtractId(hrefs[k]) == Some(names[k])
    ensures forall id :: id in IdsOf(hrefs) <==> id in names
  {
    forall id ensures id in IdsOf(hrefs) <==> id in names {
      IdsOfMembers(hrefs, id);
    }
  }

  /** The link to invoice `id` on a listing view. */
  function InvoiceLink(id: string): string {
    InvoicesSegment + id
  }

  /** A view linking invoices a, b and c contributes exactly those IDs. */
  lemma ThreeLinkView(a: string, b: string, c: string)
    requires a != [] && AllDigits(a) && b != [] && AllDigits(b) && c != [] && AllDigits(c)
    ensures forall id :: id in IdsOf([InvoiceLink(a), InvoiceLink(b), InvoiceLink(c)]) <==> id in [a, b, c]
  {
    var links, ids := [InvoiceLink(a), InvoiceLink(b), InvoiceLink(c)], [a, b, c];
    forall k | 0 <= k < 3 ensures ExtractId(links[k]) == Some(ids[k]) {
      ExtractsTrailingId(ids[k]);
    }
    IdsOfNamedLinks(links, ids);
  }

  /** A view linking invoices c and d contributes exactly those IDs. */
  lemma TwoLinkView(c: string, d: string)
    requires c != [] && AllDigits(c) && d != [] && AllDigits(d)
    ensures forall id :: id in IdsOf([InvoiceLink(c), InvoiceLink(d)]) <==> id in [c, d]
  {
    var links, ids := [InvoiceLink(c), InvoiceLink(d)], [c, d];
    forall k | 0 <= k < 2 ensures ExtractId(links[k]) == Some(ids[k]) {
      ExtractsTrailingId(ids[k]);
    }
    IdsOfNamedLinks(links, ids);
  }

  /** Two listing views, the first linking invoices a, b, c with an enabled
      next control, the second linking c again and d with a disabled one:
      the enumeration visits both views and collects a, b, c and d, the
      repeated c once. */
  lemma TwoPageListing(a: string, b: string, c: string, d: string, pages: seq<Page>)
    requires a != [] && AllDigits(a) && b != [] && AllDigits(b)
    requires c != [] && AllDigits(c) && d != [] && AllDigits(d)
    requires pages == [Page([InvoiceLink(a), InvoiceLink(b), InvoiceLink(c)], Enabled),
                       Page([InvoiceLink(c), InvoiceLink(d)], Disabled)]
    ensures HasLastPage(pages) && StopIndex(pages) == 1
    ensures forall id :: id in CollectIds(pages[..StopIndex(pages) + 1]) <==> id in [a, b, c, d]
  {
    assert pages[1].next != Enabled;
    ThreeLinkView(a, b, c);
    TwoLinkView(c, d);
    assert pages[..2] == pages;
    assert pages[..1] == [pages[0]];
    assert CollectIds(pages) == CollectIds([pages[0]]) + IdsOf(pages[1].hrefs);
    assert CollectIds([pages[0]]) == CollectIds([]) + IdsOf(pages[0].hrefs);
  }

  predicate NoDuplicates(xs: seq<string>) {
    forall i, j :: 0 <= i < j < |xs| ==> xs[i] != xs[j]
  }

  /** `list(invoice_ids)`: the elements of a set, each once, in an unspecified order. */
  method ListOf(s: set<string>) returns (xs: seq<string>)
    ensures NoDuplicates(xs) && |xs| == |s|
    ensures forall x :: x in xs <==> x in s
  {
    xs := [];
    var rest := s;
    while rest != {}
      invariant rest <= s
      invariant NoDuplicates(xs) && |xs| + |rest| == |s|
      invariant forall x :: x in xs <==> x in s - rest
      decreases rest
    {
      var x :| x in rest;
      assert x !in xs;
      xs := xs + [x];
      rest := rest - {x};
    }
  }

  /** The inner `for` loop of `get_invoice_ids`: adds the ID of every href that names one. */
  method AddIds(found: set<string>, hrefs: seq<string>) returns (grown: set<string>)
    ensures grown == found + IdsOf(hrefs)
  {
    grown := found;
    var j := 0;
    while j < |hrefs|
      invariant j <= |hrefs|
      invariant grown == found + IdsOf(hrefs[..j])
    {
      assert hrefs[..j + 1][..j] == hrefs[..j];
      match ExtractId(hrefs[j]) {
        case Some(id) => grown := grown + {id};
        case None =>
      }
      j := j + 1;
    }
    assert hrefs[..j] == hrefs;
  }

  /** `get_invoice_ids`: walks the listing views in order, adding every ID the
      links name to one set, until a view's next control is absent or disabled;
      returns the set as a duplicate-free list and how many views were read. */
  method GetInvoiceIds(pages: seq<Page>) returns (ids: seq<string>, visited: nat)
    requires HasLastPage(pages)
    ensures visited == StopIndex(pages) + 1
    ensures NoDuplicates(ids) && |ids| == |CollectIds(pages[..visited])|
    ensures forall id :: id in ids <==> id in CollectIds(pages[..visited])
  {
    var found: set<string> := {};
    var i := 0;
    while true
      invariant i <= StopIndex(pages)
      invariant found == CollectIds(pages[..i])
      decreases StopIndex(pages) - i
    {
      found := AddIds(found, pages[i].hrefs);
      assert pages[..i + 1][..i] == pages[..i];
      if pages[i].next == Enabled {
        i := i + 1;
      } else {
        visited := i + 1;
        break;
      }
    }
    ids := ListOf(found);
  }
}
