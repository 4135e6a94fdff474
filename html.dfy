/**
 * The parts of a rendered pmanager.org page that the scrapers look at, without
 * the HTML itself.  A page is a sequence of blocks in document order: a table
 * row (`tr`) with its classes and its cells (`td`), or a node that sits outside
 * any cell.  A cell has its classes, the text of its first `<b>` element if it
 * has one, and its text nodes in document order.
 *
 * BeautifulSoup's `find` becomes `FindIn`: the first cell or loose node, in
 * document order, that a predicate accepts.  A hit on a loose node is what makes
 * `find_parent('td')` return `None` in the source.
 */
module Html {
  import opened Wrappers
  import opened PyText

  datatype Cell = Cell(classes: set<string>, bold: Option<string>, strings: seq<string>)

  datatype Block = Row(rowClasses: set<string>, cells: seq<Cell>) | Loose(node: Cell)

  type Page = seq<Block>

  /** Where a search ended: nothing matched, the first match lies outside any cell, or cell `col` of block `row`. */
  datatype Hit = Missing | Unwrapped | At(row: nat, col: nat)

  // ---------------------------------------------------------------- text of a cell

  /** The text nodes of a cell with surrounding whitespace removed, blank ones dropped. */
  function Pieces(strings: seq<string>): (r: seq<string>)
    ensures forall i :: 0 <= i < |r| ==> r[i] != []
    ensures r == [] <==> forall i :: 0 <= i < |strings| ==> Strip(strings[i]) == []
  {
    if strings == [] then []
    else
      var rest := Pieces(strings[1..]);
      assert forall i :: 1 <= i < |strings| ==> strings[i] == strings[1..][i - 1];
      if Strip(strings[0]) == [] then rest else [Strip(strings[0])] + rest
  }

  function Join(parts: seq<string>, sep: string): string {
    if parts == [] then []
    else if |parts| == 1 then parts[0]
    else parts[0] + sep + Join(parts[1..], sep)
  }

  lemma {:induction false} JoinEmpty(parts: seq<string>, sep: string)
    requires forall i :: 0 <= i < |parts| ==> parts[i] != []
    ensures Join(parts, sep) == [] <==> parts == []
    decreases |parts|
  {
    if |parts| > 1 {
      JoinEmpty(parts[1..], sep);
    }
  }

  /** `td.get_text(strip=True)`. */
  function CellText(c: Cell): string {
    Join(Pieces(c.strings), "")
  }

  /** `td.get_text(strip=True, separator=" ")`. */
  function CellSpacedText(c: Cell): string {
    Join(Pieces(c.strings), " ")
  }

  /** A cell reads as blank exactly when every one of its text nodes is whitespace. */
  lemma CellTextBlank(c: Cell)
    ensures CellText(c) == [] <==> forall i :: 0 <= i < |c.strings| ==> Strip(c.strings[i]) == []
    ensures CellSpacedText(c) == [] <==> CellText(c) == []
  {
    JoinEmpty(Pieces(c.strings), "");
    JoinEmpty(Pieces(c.strings), " ");
  }

  // ---------------------------------------------------------------- search

  predicate BlockHas(b: Block, p: Cell -> bool) {
    match b
    case Row(_, cells) => exists j :: 0 <= j < |cells| && p(cells[j])
    case Loose(n) => p(n)
  }

  /** The first cell of `cells` at or after `j` that `p` accepts. */
  function FirstCell(cells: seq<Cell>, p: Cell -> bool, j: nat): (r: Option<nat>)
    requires j <= |cells|
    ensures r.Some? ==> j <= r.value < |cells| && p(cells[r.value])
    ensures r.Some? ==> forall k :: j <= k < r.value ==> !p(cells[k])
    ensures r.None? ==> forall k :: j <= k < |cells| ==> !p(cells[k])
    decreases |cells| - j
  {
    if j == |cells| then None
    else if p(cells[j]) then Some(j)
    else FirstCell(cells, p, j + 1)
  }

  /** The first block at or after `b` with a node that `p` accepts, and where in it. */
  function FindFrom(page: Page, p: Cell -> bool, b: nat): (h: Hit)
    requires b <= |page|
    ensures h.At? ==> b <= h.row < |page| && page[h.row].Row? && h.col < |page[h.row].cells|
    ensures h.At? ==> p(page[h.row].cells[h.col])
    decreases |page| - b
  {
    if b == |page| then Missing
    else
      match page[b]
      case Loose(n) =>
        if p(n) then Unwrapped else FindFrom(page, p, b + 1)
      case Row(_, cells) =>
        match FirstCell(cells, p, 0)
        case Some(j) => At(b, j)
        case None => FindFrom(page, p, b + 1)
  }

  /** `FindFrom` stops at the first block that has a match, and at the first match in that block. */
  lemma {:induction false} FindFromFirst(page: Page, p: Cell -> bool, b: nat)
    requires b <= |page|
    ensures var h := FindFrom(page, p, b);
            && (h.Missing? <==> forall k :: b <= k < |page| ==> !BlockHas(page[k], p))
            && (h.At? ==> forall j :: 0 <= j < h.col ==> !p(page[h.row].cells[j]))
            && (!h.Missing? ==> exists k :: b <= k < |page| && BlockHas(page[k], p) && (h.Unwrapped? <==> page[k].Loose?)
                                           && (h.At? ==> k == h.row) && forall k' :: b <= k' < k ==> !BlockHas(page[k'], p))
    decreases |page| - b
  {
    if b < |page| {
      FindFromFirst(page, p, b + 1);
      match page[b]
      case Loose(n) =>
      case Row(_, cells) =>
        var f := FirstCell(cells, p, 0);
        if f.None? {
          assert !BlockHas(page[b], p);
        }
    }
  }

  /** `soup.find(...)` for a node that `p` accepts. */
  function FindIn(page: Page, p: Cell -> bool): (h: Hit)
    ensures h.At? ==> h.row < |page| && page[h.row].Row? && h.col < |page[h.row].cells|
    ensures h.At? ==> p(page[h.row].cells[h.col])
  {
    FindFrom(page, p, 0)
  }

  /**
   * Nothing matches exactly when no block has a match; a hit in a cell is the
   * first match of the first block that has one; a hit outside any cell is a
   * loose node that matches, with no match in an earlier block.
   */
  lemma FindInFirst(page: Page, p: Cell -> bool)
    ensures FindIn(page, p).Missing? <==> forall k :: 0 <= k < |page| ==> !BlockHas(page[k], p)
    ensures var h := FindIn(page, p);
            h.At? ==> (forall j :: 0 <= j < h.col ==> !p(page[h.row].cells[j]))
                      && forall k :: 0 <= k < h.row ==> !BlockHas(page[k], p)
    ensures FindIn(page, p).Unwrapped? ==> exists k :: 0 <= k < |page| && page[k].Loose? && p(page[k].node)
                                                       && forall k' :: 0 <= k' < k ==> !BlockHas(page[k'], p)
  {
    FindFromFirst(page, p, 0);
  }

  /** A match in cell `j` of row `r`, with no match in an earlier block or an earlier cell of that row, is the hit. */
  lemma FindInAt(page: Page, p: Cell -> bool, r: nat, j: nat)
    requires r < |page| && page[r].Row? && j < |page[r].cells| && p(page[r].cells[j])
    requires forall k :: 0 <= k < r ==> !BlockHas(page[k], p)
    requires forall j' :: 0 <= j' < j ==> !p(page[r].cells[j'])
    ensures FindIn(page, p) == At(r, j)
  {
    FindFromAt(page, p, r, j, 0);
  }

  lemma {:induction false} FindFromAt(page: Page, p: Cell -> bool, r: nat, j: nat, b: nat)
    requires r < |page| && page[r].Row? && j < |page[r].cells| && p(page[r].cells[j])
    requires forall k :: 0 <= k < r ==> !BlockHas(page[k], p)
    requires forall j' :: 0 <= j' < j ==> !p(page[r].cells[j'])
    requires b <= r
    ensures FindFrom(page, p, b) == At(r, j)
    decreases r - b
  {
    if b < r {
      FindFromAt(page, p, r, j, b + 1);
      assert !BlockHas(page[b], p);
    }
  }

  /** A loose node that matches, with no match in an earlier block, is hit outside any cell. */
  lemma {:induction false} FindFromLoose(page: Page, p: Cell -> bool, k: nat, b: nat)
    requires k < |page| && page[k].Loose? && p(page[k].node)
    requires forall k' :: 0 <= k' < k ==> !BlockHas(page[k'], p)
    requires b <= k
    ensures FindFrom(page, p, b) == Unwrapped
    decreases k - b
  {
    if b < k {
      FindFromLoose(page, p, k, b + 1);
      assert !BlockHas(page[b], p);
    }
  }

  /** The cells after the hit cell in its row: `find_next_siblings('td')`. */
  function SiblingsAfter(page: Page, h: Hit): seq<Cell>
    requires h.At? ==> h.row < |page| && page[h.row].Row? && h.col < |page[h.row].cells|
  {
    if h.At? then page[h.row].cells[h.col + 1..] else []
  }

  // ---------------------------------------------------------------- what the scrapers search for

  /** `soup.find('b', string=label)`: a `<b>` whose text is exactly `label`. */
  predicate BoldIs(c: Cell, want: string) {
    c.bold == Some(want)
  }

  /** `soup.find(string=label)`: a text node that is exactly `label`. */
  predicate HasString(c: Cell, want: string) {
    exists i :: 0 <= i < |c.strings| && c.strings[i] == want
  }

  /** `soup.find(string=re.compile(label))` for a label without pattern characters: a text node containing it. */
  predicate HasSubstring(c: Cell, want: string) {
    exists i :: 0 <= i < |c.strings| && Contains(c.strings[i], want)
  }
}
