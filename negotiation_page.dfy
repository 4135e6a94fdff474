/**
 * The negotiation page of a listed player, as the high-quality and the
 * young-potential scrapers read it: a record that starts from defaults and takes
 * five fields from the cell right of a label, one after the other.  A label found
 * outside any cell makes the lookup raise; the scraper catches the error and
 * returns the record as it stands, so earlier fields keep what they read and later
 * ones keep their defaults.
 */
module NegotiationPage {
  import opened Wrappers
  import opened SeqUtil
  import opened PyText
  import opened PyDict
  import opened Html
  import opened ListingCrawl

  /** How a label is searched: a text node containing the text (a regular expression search), or one equal to it. */
  datatype Match = Mentions(text: string) | Reads(text: string)

  /** How the value cell is read: its digits as an int, its text joined with spaces, or its text. */
  datatype Reading = Number | SpacedWords | Words

  datatype Rule = Rule(key: string, marker: Match, reading: Reading)

  const Rules: seq<Rule> := [
    Rule("estimated_value", Mentions("Estimated Transfer Value"), Number),
    Rule("asking_price", Mentions("Asking Price for Bid"), Number),
    Rule("deadline", Reads("Deadline"), SpacedWords),
    Rule("bids_avg", Reads("Bids Average (Scout)"), Words),
    Rule("bids_count", Reads("Bids"), Words)
  ]

  /** The keys the five lookups write, in order. */
  const FieldKeys: seq<string> := ["estimated_value", "asking_price", "deadline", "bids_avg", "bids_count"]

  const RecordKeys: seq<string> := ["id"] + FieldKeys

  function NegotiationUrl(id: string): string {
    BaseUrl + "/comprar_jog_lista.asp?jg_id=" + id
  }

  function DefaultValues(id: string): seq<Value> {
    [Value.Text(id), Int(0), Int(0), Value.Text("N/A"), Value.Text("N/A"), Value.Text("0")]
  }

  /** The record before any lookup. */
  function Defaults(id: string): Dict {
    FromPairs(RecordKeys, DefaultValues(id))
  }

  function Finds(m: Match): Cell -> bool {
    match m
    case Mentions(t) => c => HasSubstring(c, t)
    case Reads(t) => c => HasString(c, t)
  }

  /**
   * What the value cell gives: for a number, `re.sub(r'[^\d]', '', text)` and its
   * `int`, but only when some digit is left; text always.
   */
  function ReadCell(r: Reading, c: Cell): Option<Value> {
    match r
    case Number =>
      var clean := OnlyDigits(CellText(c));
      if clean != [] then Some(Int(DigitsValue(clean))) else None
    case SpacedWords => Some(Value.Text(CellSpacedText(c)))
    case Words => Some(Value.Text(CellText(c)))
  }

  /** What one lookup does to the record. */
  datatype Effect = Raises | Skips | Writes(v: Value)

  /**
   * The label is missing: nothing.  The label is outside any cell:
   * `find_parent('td')` is `None` and the lookup raises.  The label's cell has no
   * next cell, or a number cell has no digit: nothing.  Otherwise the value read.
   */
  function EffectOf(page: Page, rule: Rule): Effect {
    var h := FindIn(page, Finds(rule.marker));
    match h
    case Missing => Skips
    case Unwrapped => Raises
    case At(r, j) =>
      if j + 1 < |page[r].cells| then
        match ReadCell(rule.reading, page[r].cells[j + 1])
        case Some(v) => Writes(v)
        case None => Skips
      else Skips
  }

  /** The effects of the five lookups on `page`, in order. */
  function Effects(page: Page): seq<Effect> {
    seq(|Rules|, j requires 0 <= j < |Rules| => EffectOf(page, Rules[j]))
  }

  /**
   * The effects from the `i`-th on applied in order to `d`, the `j`-th writing
   * `keys[j]`, stopping at the first that raises.
   */
  function Run(d: Dict, keys: seq<string>, es: seq<Effect>, i: nat): Dict
    requires |keys| == |es|
    decreases |es| - i
  {
    if i >= |es| then d
    else
      match es[i]
      case Raises => d
      case Skips => Run(d, keys, es, i + 1)
      case Writes(v) => Run(Set(d, keys[i], v), keys, es, i + 1)
  }

  /** The record `get_estimated_value` returns for the player `id` whose negotiation page is `page`. */
  function Record(page: Page, id: string): Dict {
    Run(Defaults(id), FieldKeys, Effects(page), 0)
  }

  // ---------------------------------------------------------------- the scraper

  /** One `if label: ... val_td = ...` block: `raised` when its lookup raises, the record updated otherwise. */
  method ApplyRule(data: Dict, page: Page, rule: Rule) returns (d: Dict, raised: bool)
    ensures raised <==> EffectOf(page, rule).Raises?
    ensures d == if EffectOf(page, rule).Writes? then Set(data, rule.key, EffectOf(page, rule).v) else data
  {
    d, raised := data, false;
    var h := FindIn(page, Finds(rule.marker));
    if h.Unwrapped? {
      raised := true;
      return;
    }
    if h.At? && h.col + 1 < |page[h.row].cells| {
      var valTd := page[h.row].cells[h.col + 1];
      var v := ReadValue(rule.reading, valTd);
      assert EffectOf(page, rule) == if v.Some? then Writes(v.value) else Skips;
      if v.Some? {
        d := Set(d, rule.key, v.value);
      }
    }
  }

  /** The value cell read as the rule says, `None` for a number cell with no digit. */
  method ReadValue(reading: Reading, valTd: Cell) returns (v: Option<Value>)
    ensures v == ReadCell(reading, valTd)
  {
    match reading {
      case Number =>
        var clean := OnlyDigits(CellText(valTd));
        v := if clean != [] then Some(Int(DigitsValue(clean))) else None;
      case SpacedWords =>
        v := Some(Value.Text(CellSpacedText(valTd)));
      case Words =>
        v := Some(Value.Text(CellText(valTd)));
    }
  }

  /**
   * `get_estimated_value`: `open` gives the page at a URL.  The five lookups run
   * in order on the defaults, and the first one that raises ends the extraction
   * with the record as it stands.
   */
  method GetEstimatedValue(open: string -> Page, id: string) returns (data: Dict)
    ensures data == Record(open(NegotiationUrl(id)), id)
  {
    var page := open(NegotiationUrl(id));
    data := Extract(Defaults(id), page);
  }

  /** The body of the `try`: the five lookups, in order, until one raises. */
  method Extract(data0: Dict, page: Page) returns (data: Dict)
    ensures data == Run(data0, FieldKeys, Effects(page), 0)
  {
    data := data0;
    var raised;
    var block := 0;
    data, raised := Lookup(data, page, block);
    if raised { return; }
    block := block + 1;
    data, raised := Lookup(data, page, block);
    if raised { return; }
    block := block + 1;
    data, raised := Lookup(data, page, block);
    if raised { return; }
    block := block + 1;
    data, raised := Lookup(data, page, block);
    if raised { return; }
    block := block + 1;
    data, raised := Lookup(data, page, block);
  }

  /** The `i`-th block of the scraper: what is left of the extraction after it is the rest of the lookups, unless it raised. */
  method Lookup(data: Dict, page: Page, i: nat) returns (d: Dict, raised: bool)
    requires i < |Rules|
    ensures raised ==> d == data && Run(data, FieldKeys, Effects(page), i) == data
    ensures !raised ==> Run(data, FieldKeys, Effects(page), i) == Run(d, FieldKeys, Effects(page), i + 1)
  {
    d, raised := ApplyRule(data, page, Rules[i]);
    assert Effects(page)[i] == EffectOf(page, Rules[i]);
    RuleKeys();
  }

  // ---------------------------------------------------------------- what the record holds

  lemma RuleKeys()
    ensures forall j :: 0 <= j < |Rules| ==> Rules[j].key == FieldKeys[j]
    ensures NoDups(FieldKeys) && NoDups(RecordKeys) && "id" !in FieldKeys
  {
  }

  /** Some effect from the `i`-th to the `m`-th raises. */
  predicate RaisedBetween(es: seq<Effect>, i: nat, m: nat) {
    exists j :: i <= j <= m && j < |es| && es[j].Raises?
  }

  /** A key that no remaining effect writes keeps its value. */
  lemma {:induction false} RunOther(d: Dict, keys: seq<string>, es: seq<Effect>, i: nat, k: string)
    requires |keys| == |es|
    requires forall j :: i <= j < |keys| ==> keys[j] != k
    ensures Get(Run(d, keys, es, i), k) == Get(d, k)
    decreases |es| - i
  {
    if i < |es| {
      match es[i]
      case Raises =>
      case Skips => RunOther(d, keys, es, i + 1, k);
      case Writes(v) =>
        RunOther(Set(d, keys[i], v), keys, es, i + 1, k);
        GetSetOther(d, keys[i], v, k);
    }
  }

  /** The keys stay where they are when every remaining effect writes a key the record already has. */
  lemma {:induction false} RunKeys(d: Dict, keys: seq<string>, es: seq<Effect>, i: nat)
    requires |keys| == |es|
    requires forall j :: i <= j < |keys| ==> HasKey(d, keys[j])
    ensures Keys(Run(d, keys, es, i)) == Keys(d)
    decreases |es| - i
  {
    if i < |es| {
      match es[i]
      case Raises =>
      case Skips => RunKeys(d, keys, es, i + 1);
      case Writes(v) =>
        var d' := Set(d, keys[i], v);
        assert Keys(d') == Keys(d);
        RunKeys(d', keys, es, i + 1);
    }
  }

  /**
   * The `m`-th key after the effects from the `i`-th on: what the `m`-th effect
   * wrote, unless it wrote nothing or an effect up to it raised, in which case the
   * key keeps its value.
   */
  lemma {:induction false} RunGet(d: Dict, keys: seq<string>, es: seq<Effect>, i: nat, m: nat)
    requires |keys| == |es| && NoDups(keys) && i <= m < |es|
    ensures Get(Run(d, keys, es, i), keys[m]) ==
              if RaisedBetween(es, i, m) || !es[m].Writes? then Get(d, keys[m]) else Some(es[m].v)
    decreases m - i
  {
    var e := es[i];
    var d' := if e.Writes? then Set(d, keys[i], e.v) else d;
    if e.Raises? {
      assert RaisedBetween(es, i, m);
    } else if i < m {
      assert Run(d, keys, es, i) == Run(d', keys, es, i + 1);
      RunGet(d', keys, es, i + 1, m);
      RaisedStep(es, i, m);
      if e.Writes? {
        GetSetOther(d, keys[i], e.v, keys[m]);
      }
    } else {
      RaisedAt(es, i);
      assert Run(d, keys, es, i) == Run(d', keys, es, i + 1);
      RunOther(d', keys, es, i + 1, keys[m]);
      if e.Writes? {
        GetSetSame(d, keys[m], e.v);
      }
    }
  }

  lemma RaisedAt(es: seq<Effect>, i: nat)
    requires i < |es|
    ensures RaisedBetween(es, i, i) <==> es[i].Raises?
  {
  }

  lemma RaisedStep(es: seq<Effect>, i: nat, m: nat)
    requires i < m < |es| && !es[i].Raises?
    ensures RaisedBetween(es, i, m) <==> RaisedBetween(es, i + 1, m)
  {
    if RaisedBetween(es, i, m) {
      var j :| i <= j <= m && j < |es| && es[j].Raises?;
      assert j != i;
    }
  }

  /** A number lookup only ever writes a non-negative int. */
  lemma NumberWrites(page: Page, rule: Rule)
    requires rule.reading == Number && EffectOf(page, rule).Writes?
    ensures EffectOf(page, rule).v.Int? && EffectOf(page, rule).v.i >= 0
  {
  }

  /** A record always comes back, with all six keys in their order and the id unchanged. */
  lemma RecordShape(page: Page, id: string)
    ensures Keys(Record(page, id)) == RecordKeys && WellFormed(Record(page, id))
    ensures Get(Record(page, id), "id") == Some(Value.Text(id))
  {
    RuleKeys();
    var d := Defaults(id);
    assert Keys(d) == RecordKeys;
    forall j | 0 <= j < |FieldKeys| ensures HasKey(d, FieldKeys[j]) {
      assert FieldKeys[j] == Keys(d)[j + 1];
    }
    RunKeys(d, FieldKeys, Effects(page), 0);
    RunOther(d, FieldKeys, Effects(page), 0, "id");
    GetFromPairs(RecordKeys, DefaultValues(id), 0);
  }

  /**
   * Partial results: the field of the `m`-th lookup holds what that lookup read,
   * unless it read nothing or some lookup up to it raised; then it holds its default.
   */
  lemma RecordField(page: Page, id: string, m: nat)
    requires m < |Rules|
    ensures Get(Record(page, id), Rules[m].key) ==
              if RaisedBetween(Effects(page), 0, m) || !EffectOf(page, Rules[m]).Writes? then Some(DefaultValues(id)[m + 1])
              else Some(EffectOf(page, Rules[m]).v)
  {
    RuleKeys();
    RunGet(Defaults(id), FieldKeys, Effects(page), 0, m);
    assert RecordKeys[m + 1] == FieldKeys[m];
    GetFromPairs(RecordKeys, DefaultValues(id), m + 1);
  }

  predicate IsCount(v: Option<Value>) {
    v.Some? && v.value.Int? && v.value.i >= 0
  }

  /** A number field is always a non-negative int: digits read from its cell, or its default 0. */
  lemma NumberField(page: Page, id: string, m: nat)
    requires m < |Rules| && Rules[m].reading == Number
    ensures IsCount(Get(Record(page, id), Rules[m].key))
  {
    RecordField(page, id, m);
    if EffectOf(page, Rules[m]).Writes? {
      NumberWrites(page, Rules[m]);
    }
  }

  /** The two prices are always non-negative ints. */
  lemma RecordPrices(page: Page, id: string)
    ensures IsCount(Get(Record(page, id), "estimated_value")) && IsCount(Get(Record(page, id), "asking_price"))
  {
    assert Rules[0].key == "estimated_value" && Rules[0].reading == Number;
    assert Rules[1].key == "asking_price" && Rules[1].reading == Number;
    NumberField(page, id, 0);
    NumberField(page, id, 1);
  }

  /** A page that shows none of the five labels gives the defaults. */
  lemma NoLabelsGiveDefaults(page: Page, id: string)
    requires forall j, k :: 0 <= j < |Rules| && 0 <= k < |page| ==> !BlockHas(page[k], Finds(Rules[j].marker))
    ensures Record(page, id) == Defaults(id)
  {
    forall j | 0 <= j < |Rules| ensures EffectOf(page, Rules[j]).Skips? {
      FindInFirst(page, Finds(Rules[j].marker));
    }
    AllSkip(Defaults(id), FieldKeys, Effects(page), 0);
  }

  lemma {:induction false} AllSkip(d: Dict, keys: seq<string>, es: seq<Effect>, i: nat)
    requires |keys| == |es|
    requires forall j :: i <= j < |es| ==> es[j].Skips?
    ensures Run(d, keys, es, i) == d
    decreases |es| - i
  {
    if i < |es| {
      AllSkip(d, keys, es, i + 1);
    }
  }

  /** A price shown with dots between groups of three digits and a currency word reads as the number. */
  lemma ReadGroupedPrice(c: Cell, n: nat)
    requires CellText(c) == Grouped(n, '.') + " baht"
    ensures ReadCell(Number, c) == Some(Int(n))
  {
    var g := Grouped(n, '.');
    GroupedOnlyDigits(n, '.');
    OnlyDigitsAppend(g, " baht");
    assert OnlyDigits(" baht") == [] by {
      assert " baht"[1..] == "baht" && "baht"[1..] == "aht" && "aht"[1..] == "ht" && "ht"[1..] == "t" && "t"[1..] == [];
    }
    assert OnlyDigits(CellText(c)) == OnlyDigits(g);
  }
}
