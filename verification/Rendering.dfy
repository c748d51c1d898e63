/** What a phone is told about its lamps: the item text of one button, its decoding, and the rendering of a whole plan. */
module Rendering {
  import opened Basics
  import opened Text

  datatype Color = Red | Green | Blue

  datatype FlashMode = Off | Slow | Fast

  datatype ButtonState = ButtonState(
    id: nat,
    color: Color,
    flash: FlashMode,
    criticalOn: bool,
    criticalOff: bool,
    on: bool)

  datatype Lamp = LampOff | LampOn | LampSlow | LampFast

  /** The content of one ExecuteItem node; its URI attribute is the text `Uri` of it. */
  datatype Led = Led(id: nat, color: Color, lamp: Lamp)

  /** The abstract XML document: its ExecuteItem nodes in order, and the Beep attribute. */
  datatype Doc = Doc(items: seq<Led>, beep: bool)

  datatype UiState = UiState(doc: Doc, critical: bool)

  function ColorName(c: Color): string {
    match c
    case Red => "RED"
    case Green => "GREEN"
    case Blue => "BLUE"
  }

  function LampOf(b: ButtonState): Lamp {
    if !b.on then LampOff
    else
      match b.flash
      case Off => LampOn
      case Slow => LampSlow
      case Fast => LampFast
  }

  function LampName(l: Lamp): string {
    match l
    case LampOff => "off"
    case LampOn => "on"
    case LampSlow => "slowflash"
    case LampFast => "fastflash"
  }

  predicate Critical(b: ButtonState) {
    if b.on then b.criticalOn else b.criticalOff
  }

  const PREFIX := "Led:LINE"

  function Item(b: ButtonState): Led {
    Led(b.id, b.color, LampOf(b))
  }

  function Uri(l: Led): string {
    PREFIX + (Decimal(l.id) + "_" + (ColorName(l.color) + "=" + LampName(l.lamp)))
  }

  // ---------- Decoding an item ----------

  function ColorOfName(s: string): Option<Color> {
    if s == "RED" then Some(Red)
    else if s == "GREEN" then Some(Green)
    else if s == "BLUE" then Some(Blue)
    else None
  }

  function LampOfName(s: string): Option<Lamp> {
    if s == "off" then Some(LampOff)
    else if s == "on" then Some(LampOn)
    else if s == "slowflash" then Some(LampSlow)
    else if s == "fastflash" then Some(LampFast)
    else None
  }

  function DecodePair(pair: string): Option<(Color, Lamp)> {
    var parts := Parts(pair, '=');
    if |parts| != 2 || ColorOfName(parts[0]).None? || LampOfName(parts[1]).None? then None
    else Some((ColorOfName(parts[0]).value, LampOfName(parts[1]).value))
  }

  function DecodeBody(body: string): Option<Led> {
    var k := DigitRun(body);
    if k == 0 || k == |body| || body[k] != '_' then None
    else
      match DecodePair(body[k + 1..])
      case None => None
      case Some((color, lamp)) => Some(Led(Value(body[..k]), color, lamp))
  }

  function DecodeUri(s: string): Option<Led> {
    if PREFIX <= s then DecodeBody(s[|PREFIX|..]) else None
  }

  lemma NamesInvert(c: Color, l: Lamp)
    ensures ColorOfName(ColorName(c)) == Some(c) && '=' !in ColorName(c)
    ensures LampOfName(LampName(l)) == Some(l) && '=' !in LampName(l)
  {
    assert "slowflash"[0] != "fastflash"[0];
    assert |"off"| != |"on"|;
  }

  lemma PairDecodes(c: Color, l: Lamp)
    ensures DecodePair(ColorName(c) + "=" + LampName(l)) == Some((c, l))
  {
    NamesInvert(c, l);
    PartsHead(ColorName(c), LampName(l), '=');
    PartsWhole(LampName(l), '=');
  }

  lemma BodyDecodes(digits: string, pair: string, color: Color, lamp: Lamp)
    requires digits != "" && AllDigits(digits) && DecodePair(pair) == Some((color, lamp))
    ensures DecodeBody(digits + "_" + pair) == Some(Led(Value(digits), color, lamp))
  {
    var body := digits + "_" + pair;
    assert body == digits + ("_" + pair);
    DigitRunUnique(digits, "_" + pair);
    assert body[|digits| + 1..] == pair;
  }

  lemma PrefixDecodes(body: string)
    ensures DecodeUri(PREFIX + body) == DecodeBody(body)
  {
    assert (PREFIX + body)[|PREFIX|..] == body;
  }

  /** The URI of a node tells the phone exactly its line, its colour and its lamp. */
  lemma UriDecodes(l: Led)
    ensures DecodeUri(Uri(l)) == Some(l)
  {
    var pair := ColorName(l.color) + "=" + LampName(l.lamp);
    var body := Digits(l.id) + "_" + pair;
    ValueDigits(l.id);
    PairDecodes(l.color, l.lamp);
    BodyDecodes(Digits(l.id), pair, l.color, l.lamp);
    PrefixDecodes(body);
  }

  /** Nodes with the same URI text are the same node. */
  lemma UriInjective(a: Led, b: Led)
    requires Uri(a) == Uri(b)
    ensures a == b
  {
    UriDecodes(a);
    UriDecodes(b);
  }

  /** What a phone is told about one line: the line's number, its colour, and off, on or one of the two ways to flash. */
  function Spelled(id: nat, color: Color, flash: FlashMode, on: bool): string {
    "Led:LINE" + Decimal(id) + "_" + (if color == Red then "RED" else if color == Green then "GREEN" else "BLUE") + "="
    + (if !on then "off" else if flash == Off then "on" else if flash == Slow then "slowflash" else "fastflash")
  }

  /** The text that a phone is sent for a button, letter by letter. */
  lemma ItemText(b: ButtonState)
    ensures Uri(Item(b)) == Spelled(b.id, b.color, b.flash, b.on)
    ensures Uri(Item(b))
            == "Led:LINE" + Decimal(b.id) + "_"
               + (if b.color == Red then "RED" else if b.color == Green then "GREEN" else "BLUE") + "="
               + (if !b.on then "off"
                  else if b.flash == Off then "on" else if b.flash == Slow then "slowflash" else "fastflash")
  {
    var color := if b.color == Red then "RED" else if b.color == Green then "GREEN" else "BLUE";
    var lamp := if !b.on then "off"
                else if b.flash == Off then "on" else if b.flash == Slow then "slowflash" else "fastflash";
    assert ColorName(b.color) == color && LampName(LampOf(b)) == lamp;
    hide Decimal, ColorName, LampName, LampOf;
    Associates("Led:LINE", Decimal(b.id), "_", color, "=", lamp);
  }

  lemma Associates(a: string, b: string, c: string, d: string, e: string, f: string)
    ensures a + (b + (c + (d + (e + f)))) == a + b + c + d + e + f
    ensures a + (b + c + (d + e + f)) == a + b + c + d + e + f
  {
  }

  // ---------- Rendering a list of buttons ----------

  function Items(buttons: seq<ButtonState>): seq<Led> {
    if buttons == [] then [] else Items(buttons[..|buttons| - 1]) + [Item(buttons[|buttons| - 1])]
  }

  lemma {:induction false} ItemsAt(buttons: seq<ButtonState>)
    ensures |Items(buttons)| == |buttons|
    ensures forall i :: 0 <= i < |buttons| ==> Items(buttons)[i] == Item(buttons[i])
  {
    if buttons != [] {
      ItemsAt(buttons[..|buttons| - 1]);
    }
  }

  predicate AnyCritical(buttons: seq<ButtonState>) {
    exists b :: b in buttons && Critical(b)
  }

  function Render(buttons: seq<ButtonState>, seed: bool): UiState {
    var critical := seed || AnyCritical(buttons);
    UiState(Doc(Items(buttons), critical), critical)
  }

  // ---------- The rendering of a plan, whatever the order of its unordered map ----------

  predicate Ordered(ids: seq<nat>, buttons: map<nat, ButtonState>) {
    Lists(ids, buttons.Keys)
  }

  function InOrder(buttons: map<nat, ButtonState>, ids: seq<nat>): seq<ButtonState>
    requires forall id :: id in ids ==> id in buttons
  {
    if ids == [] then [] else InOrder(buttons, ids[..|ids| - 1]) + [buttons[ids[|ids| - 1]]]
  }

  lemma {:induction false} InOrderAt(buttons: map<nat, ButtonState>, ids: seq<nat>)
    requires forall id :: id in ids ==> id in buttons
    ensures |InOrder(buttons, ids)| == |ids|
    ensures forall i :: 0 <= i < |ids| ==> InOrder(buttons, ids)[i] == buttons[ids[i]]
  {
    if ids != [] {
      InOrderAt(buttons, ids[..|ids| - 1]);
    }
  }

  predicate SomeCritical(buttons: map<nat, ButtonState>) {
    exists id :: id in buttons && Critical(buttons[id])
  }

  /** `st` is a rendering of exactly these buttons: one item a button, and the flag of their critical states. */
  predicate Shows(st: UiState, buttons: map<nat, ButtonState>) {
    && |st.doc.items| == |buttons.Keys|
    && (forall id :: id in buttons ==> Item(buttons[id]) in st.doc.items)
    && st.critical == st.doc.beep == SomeCritical(buttons)
  }

  /** Rendering the buttons in any order shows them. */
  lemma RenderingShows(buttons: map<nat, ButtonState>, ids: seq<nat>)
    requires Ordered(ids, buttons) && forall id :: id in ids ==> id in buttons
    ensures Shows(Render(InOrder(buttons, ids), false), buttons)
  {
    var list := InOrder(buttons, ids);
    ListsMembers(ids, buttons.Keys);
    InOrderAt(buttons, ids);
    ItemsAt(list);
    forall id | id in buttons ensures Item(buttons[id]) in Items(list) {
      var i :| 0 <= i < |ids| && ids[i] == id;
      assert Items(list)[i] == Item(list[i]);
    }
    InOrderCritical(buttons, ids, list);
  }

  /** The texts of a document, button by button. */
  lemma RenderedTexts(buttons: seq<ButtonState>, seed: bool)
    ensures |Render(buttons, seed).doc.items| == |buttons|
    ensures forall i :: 0 <= i < |buttons| ==>
              var b := buttons[i];
              Uri(Render(buttons, seed).doc.items[i]) == Spelled(b.id, b.color, b.flash, b.on)
  {
    hide Uri, Item, Spelled;
    ItemsAt(buttons);
    forall i | 0 <= i < |buttons|
      ensures var b := buttons[i];
              Uri(Render(buttons, seed).doc.items[i]) == Spelled(b.id, b.color, b.flash, b.on)
    {
      ItemText(buttons[i]);
    }
  }

  /** A document beeps when the seed says so, or some lit button is critical when on, or some dark one when off. */
  lemma BeepExactly(buttons: seq<ButtonState>, seed: bool)
    ensures Render(buttons, seed).critical == Render(buttons, seed).doc.beep
    ensures Render(buttons, seed).critical <==>
              seed || exists i :: 0 <= i < |buttons| && if buttons[i].on then buttons[i].criticalOn else buttons[i].criticalOff
  {
    if AnyCritical(buttons) {
      var b :| b in buttons && Critical(b);
      var i :| 0 <= i < |buttons| && buttons[i] == b;
    }
    if i :| 0 <= i < |buttons| && if buttons[i].on then buttons[i].criticalOn else buttons[i].criticalOff {
      assert Critical(buttons[i]);
    }
  }

  lemma InOrderCritical(buttons: map<nat, ButtonState>, ids: seq<nat>, list: seq<ButtonState>)
    requires |ids| == |list| && forall i :: 0 <= i < |ids| ==> ids[i] in buttons && list[i] == buttons[ids[i]]
    requires forall id :: id in buttons ==> id in ids
    ensures AnyCritical(list) <==> SomeCritical(buttons)
  {
    if AnyCritical(list) {
      var i :| 0 <= i < |list| && Critical(list[i]);
      assert ids[i] in buttons;
    }
    if id :| id in buttons && Critical(buttons[id]) {
      var i :| 0 <= i < |ids| && ids[i] == id;
      assert list[i] in list;
    }
  }

  predicate Keyed(buttons: map<nat, ButtonState>) {
    forall id :: id in buttons ==> buttons[id].id == id
  }

  function ItemSet(buttons: map<nat, ButtonState>): set<Led> {
    set id | id in buttons :: Item(buttons[id])
  }

  lemma {:induction false} ItemSetSize(buttons: map<nat, ButtonState>)
    requires Keyed(buttons)
    ensures |ItemSet(buttons)| == |buttons.Keys|
    decreases |buttons.Keys|
  {
    hide LampOf;
    if id :| id in buttons {
      var rest := buttons - {id};
      assert buttons.Keys == rest.Keys + {id};
      ItemSetSize(rest);
      assert ItemSet(buttons) == ItemSet(rest) + {Item(buttons[id])};
      assert Item(buttons[id]) !in ItemSet(rest);
    } else {
      assert ItemSet(buttons) == {} && buttons.Keys == {};
    }
  }

  /** What a rendering says: nothing but the buttons' items is in it, and no item is there twice. */
  lemma ShowsNothingElse(st: UiState, buttons: map<nat, ButtonState>)
    requires Keyed(buttons) && Shows(st, buttons)
    ensures SetOf(st.doc.items) == ItemSet(buttons)
    ensures NoDup(st.doc.items)
  {
    ItemSetSize(buttons);
    SetOfFull(st.doc.items, ItemSet(buttons));
  }

  /** Whatever order the unordered map is visited in, the same items are sent, each once, with the same flag. */
  lemma OrderIrrelevant(buttons: map<nat, ButtonState>, ids: seq<nat>, others: seq<nat>)
    requires Keyed(buttons) && Ordered(ids, buttons) && Ordered(others, buttons)
    requires (forall id :: id in ids ==> id in buttons) && (forall id :: id in others ==> id in buttons)
    ensures var a, b := Render(InOrder(buttons, ids), false), Render(InOrder(buttons, others), false);
            && NoDup(a.doc.items) && NoDup(b.doc.items) && SetOf(a.doc.items) == SetOf(b.doc.items)
            && a.critical == b.critical == a.doc.beep == b.doc.beep
  {
    RenderingShows(buttons, ids);
    RenderingShows(buttons, others);
    ShowsNothingElse(Render(InOrder(buttons, ids), false), buttons);
    ShowsNothingElse(Render(InOrder(buttons, others), false), buttons);
  }

  /** Reading the URIs of a rendering back gives the lamp of a button each time, and the lamp of every button. */
  lemma ShowsDecodes(st: UiState, buttons: map<nat, ButtonState>)
    requires Keyed(buttons) && Shows(st, buttons)
    ensures forall id :: id in buttons ==>
              exists i :: 0 <= i < |st.doc.items| && DecodeUri(Uri(st.doc.items[i])) == Some(Item(buttons[id]))
    ensures forall i :: 0 <= i < |st.doc.items| ==>
              var d := DecodeUri(Uri(st.doc.items[i]));
              d.Some? && d.value.id in buttons && d.value == Item(buttons[d.value.id])
  {
    ShowsNothingElse(st, buttons);
    forall i | 0 <= i < |st.doc.items|
      ensures DecodeUri(Uri(st.doc.items[i])) == Some(st.doc.items[i])
      ensures st.doc.items[i].id in buttons && st.doc.items[i] == Item(buttons[st.doc.items[i].id])
    {
      UriDecodes(st.doc.items[i]);
      assert st.doc.items[i] in SetOf(st.doc.items);
    }
  }
}
