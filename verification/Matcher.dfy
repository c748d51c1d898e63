/**
 The document matcher: it compiles its expression once, keeps the syntax tree and the variables' values between
 documents, and answers as if it evaluated the expression afresh on each document.
 */
module Matcher {
  import opened Basics

  /** A document: its scalar values by key. */
  type Doc = map<string, string>

  /** User-defined names for document keys. */
  type SymbolMap = map<string, string>

  datatype Mapping = Mapping(symbol: string, key: string)

  /** `config[i]` is the first mapping of this symbol. */
  ghost predicate FirstAt(config: seq<Mapping>, i: int, symbol: string) {
    && 0 <= i < |config| && config[i].symbol == symbol
    && forall j :: 0 <= j < i ==> config[j].symbol != symbol
  }

  /** SymbolMap::create: a duplicate symbol is ignored, so the first mapping of each symbol is the one that holds. */
  method CreateSymbolMap(config: seq<Mapping>) returns (symbolMap: SymbolMap)
    ensures forall i, symbol :: FirstAt(config, i, symbol) ==> symbol in symbolMap && symbolMap[symbol] == config[i].key
    ensures forall symbol :: symbol in symbolMap ==> exists i :: FirstAt(config, i, symbol)
  {
    symbolMap := map[];
    for i := 0 to |config|
      invariant forall j, symbol :: j < i && FirstAt(config, j, symbol) ==>
        symbol in symbolMap && symbolMap[symbol] == config[j].key
      invariant forall symbol :: symbol in symbolMap ==> exists j :: j < i && FirstAt(config, j, symbol)
      invariant forall j :: 0 <= j < i ==> config[j].symbol in symbolMap
    {
      if config[i].symbol !in symbolMap {
        assert FirstAt(config, i, config[i].symbol);
        symbolMap := symbolMap[config[i].symbol := config[i].key];
      }
    }
  }

  /** SymbolMap::getSymbol: a symbol without a mapping stands for itself. */
  function KeyOf(symbolMap: SymbolMap, symbol: string): string {
    if symbol in symbolMap then symbolMap[symbol] else symbol
  }

  // ---------- Expressions ----------

  datatype Operand = Symbol(name: string) | Literal(text: string)

  /** Within is the substring test. */
  datatype Relation = Equal | NotEqual | Within

  datatype Expr =
    | Compare(left: Operand, relation: Relation, right: Operand)
    | Both(first: Expr, second: Expr)
    | Either(first: Expr, second: Expr)
    | Not(negated: Expr)

  /** The match text: an expression, or text with a syntax error and the symbols the parser meets before the error. */
  datatype Source = Good(expr: Expr) | Bad(seen: seq<string>)

  function OperandSymbols(o: Operand): seq<string> {
    if o.Symbol? then [o.name] else []
  }

  /** The symbols in the order in which the parser meets them. */
  function Symbols(e: Expr): seq<string> {
    match e
    case Compare(left, _, right) => OperandSymbols(left) + OperandSymbols(right)
    case Both(first, second) => Symbols(first) + Symbols(second)
    case Either(first, second) => Symbols(first) + Symbols(second)
    case Not(negated) => Symbols(negated)
  }

  function Met(source: Source): seq<string> {
    match source
    case Good(expr) => Symbols(expr)
    case Bad(seen) => seen
  }

  predicate Contains(text: string, part: string) {
    part == "" || (text != "" && (part <= text || Contains(text[1..], part)))
  }

  function OperandText(o: Operand, values: map<string, string>): string
    requires o.Symbol? ==> o.name in values
  {
    match o
    case Symbol(name) => values[name]
    case Literal(text) => text
  }

  predicate Truth(e: Expr, values: map<string, string>)
    requires SetOf(Symbols(e)) <= values.Keys
  {
    match e
    case Compare(left, relation, right) =>
      assert forall o :: o == left || o == right ==> forall s :: s in OperandSymbols(o) ==> s in SetOf(Symbols(e));
      assert left.Symbol? ==> left.name in OperandSymbols(left);
      assert right.Symbol? ==> right.name in OperandSymbols(right);
      var l := OperandText(left, values);
      var r := OperandText(right, values);
      (match relation
       case Equal => l == r
       case NotEqual => l != r
       case Within => Contains(r, l))
    case Both(first, second) =>
      assert SetOf(Symbols(e)) == SetOf(Symbols(first)) + SetOf(Symbols(second));
      Truth(first, values) && Truth(second, values)
    case Either(first, second) =>
      assert SetOf(Symbols(e)) == SetOf(Symbols(first)) + SetOf(Symbols(second));
      Truth(first, values) || Truth(second, values)
    case Not(negated) => !Truth(negated, values)
  }

  predicate HasKeys(e: Expr, symbolMap: SymbolMap, doc: Doc) {
    forall s :: s in Symbols(e) ==> KeyOf(symbolMap, s) in doc
  }

  /** The values that a document gives the symbols of an expression. */
  function Environment(e: Expr, symbolMap: SymbolMap, doc: Doc): map<string, string>
    requires HasKeys(e, symbolMap, doc)
  {
    map s | s in SetOf(Symbols(e)) :: doc[KeyOf(symbolMap, s)]
  }

  /**
   The stateless meaning of a match: the text is an expression, the document has a key for each of its symbols, and
   the expression is true of the document's values.
   */
  predicate Matches(source: Source, symbolMap: SymbolMap, doc: Doc) {
    && source.Good?
    && HasKeys(source.expr, symbolMap, doc)
    && Truth(source.expr, Environment(source.expr, symbolMap, doc))
  }

  // ---------- The meaning, case by case ----------

  /** What an operand stands for in a document, when it stands for anything. */
  predicate Known(o: Operand, symbolMap: SymbolMap, doc: Doc) {
    o.Symbol? ==> (if o.name in symbolMap then symbolMap[o.name] else o.name) in doc
  }

  function TextOf(o: Operand, symbolMap: SymbolMap, doc: Doc): string
    requires Known(o, symbolMap, doc)
  {
    if o.Literal? then o.text else doc[if o.name in symbolMap then symbolMap[o.name] else o.name]
  }

  lemma {:induction false} ContainsExactly(text: string, part: string)
    ensures Contains(text, part) <==> exists before: string, after: string :: text == before + part + after
  {
    if Contains(text, part) {
      var before, after := Around(text, part);
    }
    if before: string, after: string :| text == before + part + after {
      PartIsFound(before, part, after);
    }
  }

  lemma {:induction false} Around(text: string, part: string) returns (before: string, after: string)
    requires Contains(text, part)
    ensures text == before + part + after
  {
    if part <= text {
      before, after := "", text[|part|..];
    } else {
      before, after := Around(text[1..], part);
      before := [text[0]] + before;
    }
  }

  lemma {:induction false} PartIsFound(before: string, part: string, after: string)
    ensures Contains(before + part + after, part)
  {
    var text := before + part + after;
    if before == "" {
      assert part <= text;
    } else {
      PartIsFound(before[1..], part, after);
      assert text[1..] == before[1..] + part + after;
    }
  }

  /** A comparison holds of the values under the operands' mapped keys, and fails when one of the keys is missing. */
  lemma MatchesCompare(left: Operand, relation: Relation, right: Operand, symbolMap: SymbolMap, doc: Doc)
    ensures Matches(Good(Compare(left, relation, right)), symbolMap, doc) <==>
              && Known(left, symbolMap, doc) && Known(right, symbolMap, doc)
              && var l, r := TextOf(left, symbolMap, doc), TextOf(right, symbolMap, doc);
                 match relation
                 case Equal => l == r
                 case NotEqual => l != r
                 case Within => exists before: string, after: string :: r == before + l + after
  {
    hide Contains;
    var e := Compare(left, relation, right);
    assert HasKeys(e, symbolMap, doc) <==> Known(left, symbolMap, doc) && Known(right, symbolMap, doc) by {
      assert left.Symbol? ==> left.name in Symbols(e);
      assert right.Symbol? ==> right.name in Symbols(e);
    }
    if HasKeys(e, symbolMap, doc) {
      ContainsExactly(TextOf(right, symbolMap, doc), TextOf(left, symbolMap, doc));
    }
  }

  /** A symbol compared with a literal: it is the value under the mapped key that counts, or under the symbol itself. */
  lemma SymbolAgainstLiteral(symbol: string, text: string, symbolMap: SymbolMap, doc: Doc)
    ensures var key := if symbol in symbolMap then symbolMap[symbol] else symbol;
            && (Matches(Good(Compare(Symbol(symbol), Equal, Literal(text))), symbolMap, doc) <==>
                  key in doc && doc[key] == text)
            && (Matches(Good(Compare(Symbol(symbol), NotEqual, Literal(text))), symbolMap, doc) <==>
                  key in doc && doc[key] != text)
            && (Matches(Good(Compare(Literal(text), Within, Symbol(symbol))), symbolMap, doc) <==>
                  key in doc && exists before: string, after: string :: doc[key] == before + text + after)
            && (Matches(Good(Compare(Symbol(symbol), Within, Literal(text))), symbolMap, doc) <==>
                  key in doc && exists before: string, after: string :: text == before + doc[key] + after)
  {
    hide Matches;
    MatchesCompare(Symbol(symbol), Equal, Literal(text), symbolMap, doc);
    MatchesCompare(Symbol(symbol), NotEqual, Literal(text), symbolMap, doc);
    MatchesCompare(Literal(text), Within, Symbol(symbol), symbolMap, doc);
    MatchesCompare(Symbol(symbol), Within, Literal(text), symbolMap, doc);
  }

  /** The truth of an expression depends on the values of its own symbols alone. */
  lemma {:induction false} TruthDepends(e: Expr, a: map<string, string>, b: map<string, string>)
    requires SetOf(Symbols(e)) <= a.Keys && SetOf(Symbols(e)) <= b.Keys
    requires forall s :: s in Symbols(e) ==> a[s] == b[s]
    ensures Truth(e, a) == Truth(e, b)
  {
    hide Contains;
    match e
    case Compare(left, _, right) =>
      assert left.Symbol? ==> left.name in Symbols(e);
      assert right.Symbol? ==> right.name in Symbols(e);
    case Both(first, second) =>
      TwoParts(Symbols(first), Symbols(second));
      TruthDepends(first, a, b);
      TruthDepends(second, a, b);
    case Either(first, second) =>
      TwoParts(Symbols(first), Symbols(second));
      TruthDepends(first, a, b);
      TruthDepends(second, a, b);
    case Not(negated) => TruthDepends(negated, a, b);
  }

  lemma TwoParts(a: seq<string>, b: seq<string>)
    ensures SetOf(a + b) == SetOf(a) + SetOf(b)
    ensures forall s :: s in a + b <==> s in a || s in b
  {
  }

  /** Two documents that agree on the mapped keys of the expression's symbols get the same answer. */
  lemma OnlyMappedKeysMatter(e: Expr, symbolMap: SymbolMap, doc: Doc, other: Doc)
    requires forall s :: s in Symbols(e) ==>
               var key := if s in symbolMap then symbolMap[s] else s;
               (key in doc <==> key in other) && (key in doc ==> doc[key] == other[key])
    ensures Matches(Good(e), symbolMap, doc) == Matches(Good(e), symbolMap, other)
  {
    if HasKeys(e, symbolMap, doc) {
      TruthDepends(e, Environment(e, symbolMap, doc), Environment(e, symbolMap, other));
    }
  }

  /** The expression's symbols all have keys in the document. */
  predicate AllKnown(e: Expr, symbolMap: SymbolMap, doc: Doc) {
    match e
    case Compare(left, _, right) => Known(left, symbolMap, doc) && Known(right, symbolMap, doc)
    case Both(first, second) => AllKnown(first, symbolMap, doc) && AllKnown(second, symbolMap, doc)
    case Either(first, second) => AllKnown(first, symbolMap, doc) && AllKnown(second, symbolMap, doc)
    case Not(negated) => AllKnown(negated, symbolMap, doc)
  }

  lemma {:induction false} AllKnownExactly(e: Expr, symbolMap: SymbolMap, doc: Doc)
    ensures AllKnown(e, symbolMap, doc) <==> HasKeys(e, symbolMap, doc)
  {
    match e
    case Compare(left, _, right) =>
      assert left.Symbol? ==> left.name in Symbols(e);
      assert right.Symbol? ==> right.name in Symbols(e);
    case Both(first, second) =>
      TwoParts(Symbols(first), Symbols(second));
      AllKnownExactly(first, symbolMap, doc);
      AllKnownExactly(second, symbolMap, doc);
    case Either(first, second) =>
      TwoParts(Symbols(first), Symbols(second));
      AllKnownExactly(first, symbolMap, doc);
      AllKnownExactly(second, symbolMap, doc);
    case Not(negated) => AllKnownExactly(negated, symbolMap, doc);
  }

  /** Each part of a combination is as true among the other's values as on its own. */
  lemma Narrowed(a: Expr, b: Expr, whole: Expr, symbolMap: SymbolMap, doc: Doc)
    requires Symbols(whole) == Symbols(a) + Symbols(b) && HasKeys(whole, symbolMap, doc)
    ensures HasKeys(a, symbolMap, doc) && HasKeys(b, symbolMap, doc)
    ensures var values := Environment(whole, symbolMap, doc);
            && SetOf(Symbols(a)) <= values.Keys && SetOf(Symbols(b)) <= values.Keys
            && Truth(a, values) == Truth(a, Environment(a, symbolMap, doc))
            && Truth(b, values) == Truth(b, Environment(b, symbolMap, doc))
  {
    hide Truth, KeyOf, Symbols;
    TwoParts(Symbols(a), Symbols(b));
    var values := Environment(whole, symbolMap, doc);
    TruthHere(a, symbolMap, doc, values);
    TruthHere(b, symbolMap, doc, values);
  }

  lemma TruthHere(e: Expr, symbolMap: SymbolMap, doc: Doc, values: map<string, string>)
    requires HasKeys(e, symbolMap, doc) && SetOf(Symbols(e)) <= values.Keys
    requires forall s :: s in SetOf(Symbols(e)) ==> values[s] == doc[KeyOf(symbolMap, s)]
    ensures Truth(e, values) == Truth(e, Environment(e, symbolMap, doc))
  {
    hide Truth, KeyOf, Symbols;
    TruthDepends(e, values, Environment(e, symbolMap, doc));
  }

  /** A conjunction matches iff both its parts do. */
  lemma MatchesBoth(a: Expr, b: Expr, symbolMap: SymbolMap, doc: Doc)
    ensures Matches(Good(Both(a, b)), symbolMap, doc) <==>
              Matches(Good(a), symbolMap, doc) && Matches(Good(b), symbolMap, doc)
  {
    hide Environment, KeyOf;
    TwoParts(Symbols(a), Symbols(b));
    if HasKeys(a, symbolMap, doc) && HasKeys(b, symbolMap, doc) {
      Narrowed(a, b, Both(a, b), symbolMap, doc);
    }
  }

  /** A disjunction needs a key for every symbol of both parts, also of the one that the answer does not hang on. */
  lemma MatchesEither(a: Expr, b: Expr, symbolMap: SymbolMap, doc: Doc)
    ensures Matches(Good(Either(a, b)), symbolMap, doc) <==>
              && AllKnown(a, symbolMap, doc) && AllKnown(b, symbolMap, doc)
              && (Matches(Good(a), symbolMap, doc) || Matches(Good(b), symbolMap, doc))
  {
    hide Environment, AllKnown, KeyOf;
    AllKnownExactly(a, symbolMap, doc);
    AllKnownExactly(b, symbolMap, doc);
    TwoParts(Symbols(a), Symbols(b));
    if HasKeys(a, symbolMap, doc) && HasKeys(b, symbolMap, doc) {
      Narrowed(a, b, Either(a, b), symbolMap, doc);
    }
  }

  /** So does a negation; and text with a syntax error matches nothing. */
  lemma MatchesNot(a: Expr, symbolMap: SymbolMap, doc: Doc, seen: seq<string>)
    ensures Matches(Good(Not(a)), symbolMap, doc) <==>
              AllKnown(a, symbolMap, doc) && !Matches(Good(a), symbolMap, doc)
    ensures !Matches(Bad(seen), symbolMap, doc)
  {
    hide AllKnown;
    AllKnownExactly(a, symbolMap, doc);
    if HasKeys(a, symbolMap, doc) {
      assert Environment(Not(a), symbolMap, doc) == Environment(a, symbolMap, doc);
    }
  }

  // ---------- The parser's pass over the symbols ----------

  /**
   One pass of the parser over the symbols it meets: the symbols known afterwards, and whether it got to the end. A
   known symbol is not looked up again; the first symbol without a key in the document stops the parser.
   */
  function Resolve(met: seq<string>, known: set<string>, symbolMap: SymbolMap, doc: Doc): (set<string>, bool) {
    if met == [] then (known, true)
    else if met[0] in known then Resolve(met[1..], known, symbolMap, doc)
    else if KeyOf(symbolMap, met[0]) in doc then Resolve(met[1..], known + {met[0]}, symbolMap, doc)
    else (known, false)
  }

  /** The parser gets to the end exactly when every symbol was known before or has a key in this document. */
  lemma {:induction false} ResolveExactly(met: seq<string>, known: set<string>, symbolMap: SymbolMap, doc: Doc)
    ensures var r := Resolve(met, known, symbolMap, doc);
            && known <= r.0 <= known + SetOf(met)
            && (r.1 ==> r.0 == known + SetOf(met))
            && (r.1 <==> forall s :: s in met ==> s in known || KeyOf(symbolMap, s) in doc)
  {
    if met != [] {
      var head, rest := met[0], met[1..];
      assert met == [head] + rest;
      assert SetOf(met) == {head} + SetOf(rest);
      ResolveExactly(rest, known, symbolMap, doc);
      ResolveExactly(rest, known + {head}, symbolMap, doc);
    }
  }

  lemma Unresolved(source: Source, symbolMap: SymbolMap, doc: Doc, symbol: string)
    requires symbol in Met(source) && KeyOf(symbolMap, symbol) !in doc
    ensures !Matches(source, symbolMap, doc)
  {
  }

  lemma Ungrammatical(source: Source, symbolMap: SymbolMap, doc: Doc)
    requires source.Bad?
    ensures !Matches(source, symbolMap, doc)
  {
  }

  // ---------- The matcher ----------

  /** A string variable. */
  class Cell {
    var text: string

    constructor (text: string)
      ensures this.text == text
    {
      this.text := text;
    }
  }

  /**
   The variables are owned by the string table; the symbol table, through which the compiled expression reads them,
   holds references to the same variables.
   */
  class ExpressionMatcher {
    const source: Source
    const symbolMap: SymbolMap
    var symbolTable: map<string, Cell>
    var stringTable: map<string, Cell>
    var isValidAst: bool

    ghost predicate Distinct()
      reads this
    {
      forall s, t :: s in stringTable && t in stringTable && s != t ==> stringTable[s] != stringTable[t]
    }

    ghost predicate Shared()
      reads this
    {
      symbolTable == stringTable && Distinct()
    }

    ghost predicate Valid()
      reads this
    {
      && Shared()
      && stringTable.Keys <= SetOf(Met(source))
      && (isValidAst ==> source.Good? && stringTable.Keys == SetOf(Met(source)))
    }

    /** The values that the compiled expression sees. */
    function Seen(): map<string, string>
      reads this, symbolTable.Values
    {
      map s | s in symbolTable :: symbolTable[s].text
    }

    constructor (source: Source, symbolMap: SymbolMap)
      ensures Valid() && !isValidAst && this.source == source && this.symbolMap == symbolMap
      ensures stringTable == map[]
    {
      this.source := source;
      this.symbolMap := symbolMap;
      symbolTable := map[];
      stringTable := map[];
      isValidAst := false;
    }

    /** Assigns to a symbol's variable in the string table, which makes the variable when there is none. */
    method Store(symbol: string, text: string)
      requires Distinct()
      modifies `stringTable, stringTable.Values
      ensures Distinct() && stringTable.Keys == old(stringTable.Keys) + {symbol}
      ensures symbol in old(stringTable) ==> stringTable == old(stringTable)
      ensures symbol !in old(stringTable) ==> fresh(stringTable[symbol])
      ensures stringTable[symbol].text == text
      ensures forall s :: s in old(stringTable) && s != symbol ==>
                stringTable[s] == old(stringTable)[s] && stringTable[s].text == old(stringTable[s].text)
    {
      if symbol in stringTable {
        stringTable[symbol].text := text;
      } else {
        var cell := new Cell(text);
        stringTable := stringTable[symbol := cell];
      }
    }

    /** The resolver's callback: gives a symbol its document value and enters it in both tables, or refuses. */
    method Process(symbol: string, doc: Doc) returns (ok: bool)
      requires Shared()
      modifies `symbolTable, `stringTable, stringTable.Values
      ensures Shared()
      ensures ok <==> KeyOf(symbolMap, symbol) in doc
      ensures !ok ==> stringTable == old(stringTable)
      ensures ok ==> symbol in stringTable && stringTable[symbol].text == doc[KeyOf(symbolMap, symbol)]
      ensures forall s :: s in old(stringTable) ==> s in stringTable && stringTable[s] == old(stringTable)[s]
      ensures forall s :: s in old(stringTable) && (s != symbol || !ok) ==> stringTable[s].text == old(stringTable[s].text)
      ensures stringTable.Keys == old(stringTable.Keys) + if ok then {symbol} else {}
      ensures fresh(stringTable.Values - old(stringTable.Values))
    {
      var key := KeyOf(symbolMap, symbol);
      hide KeyOf;
      if key !in doc {
        return false;
      }
      Store(symbol, doc[key]);
      if symbol !in symbolTable {
        symbolTable := symbolTable[symbol := stringTable[symbol]];
      }
      ok := true;
    }

    /** Overwrites every variable from the document, in any order, then evaluates the syntax tree. */
    method Evaluate(doc: Doc) returns (matched: bool)
      requires Valid() && isValidAst
      modifies stringTable.Values
      ensures matched == Matches(source, symbolMap, doc)
    {
      hide Truth, KeyOf, Symbols, Environment;
      var rest := stringTable.Keys;
      while rest != {}
        invariant rest <= stringTable.Keys
        invariant forall s :: s in stringTable && s !in rest ==>
          KeyOf(symbolMap, s) in doc && stringTable[s].text == doc[KeyOf(symbolMap, s)]
        decreases |rest|
      {
        var symbol :| symbol in rest;
        var key := KeyOf(symbolMap, symbol);
        if key !in doc {
          assert symbol in Symbols(source.expr);
          return false;
        }
        stringTable[symbol].text := doc[key];
        rest := rest - {symbol};
      }
      SeenHere(doc);
      matched := Truth(source.expr, Seen());
    }

    /** With every variable overwritten, what the expression sees are the document's values. */
    lemma SeenHere(doc: Doc)
      requires Valid() && isValidAst
      requires forall s :: s in stringTable ==>
                 KeyOf(symbolMap, s) in doc && stringTable[s].text == doc[KeyOf(symbolMap, s)]
      ensures HasKeys(source.expr, symbolMap, doc) && Seen() == Environment(source.expr, symbolMap, doc)
    {
      hide KeyOf, Symbols;
      assert forall s :: s in Symbols(source.expr) ==> s in stringTable.Keys;
    }

    /** Parses the match text with this document's values, and evaluates it when that succeeds. */
    method Compile(doc: Doc) returns (matched: bool)
      requires Valid() && !isValidAst
      modifies this, stringTable.Values
      ensures Valid()
      ensures matched == Matches(source, symbolMap, doc)
      ensures var r := Resolve(Met(source), old(stringTable.Keys), symbolMap, doc);
              stringTable.Keys == r.0 && isValidAst == (source.Good? && r.1)
      ensures fresh(stringTable.Values - old(stringTable.Values))
    {
      hide Matches, Symbols, KeyOf;
      var met := Met(source);
      ResolveExactly(met, stringTable.Keys, symbolMap, doc);
      var i := 0;
      while i < |met|
        invariant 0 <= i <= |met|
        invariant Valid() && !isValidAst
        invariant Resolve(met[i..], stringTable.Keys, symbolMap, doc)
               == Resolve(met, old(stringTable.Keys), symbolMap, doc)
        invariant fresh(stringTable.Values - old(stringTable.Values))
      {
        assert met[i..][1..] == met[i + 1..];
        if met[i] !in symbolTable {
          var ok := Process(met[i], doc);
          if !ok {
            Unresolved(source, symbolMap, doc, met[i]);
            return false;
          }
        }
        i := i + 1;
      }
      if source.Bad? {
        Ungrammatical(source, symbolMap, doc);
        return false;
      }
      isValidAst := true;
      matched := Evaluate(doc);
    }

    /** The answer depends on the document alone, whatever documents came before and whatever they left behind. */
    method IsMatch(doc: Doc) returns (matched: bool)
      requires Valid()
      modifies this, stringTable.Values
      ensures Valid()
      ensures matched == Matches(source, symbolMap, doc)
      ensures old(isValidAst) ==> isValidAst && stringTable == old(stringTable)
      ensures !old(isValidAst) ==>
                var r := Resolve(Met(source), old(stringTable.Keys), symbolMap, doc);
                stringTable.Keys == r.0 && isValidAst == (source.Good? && r.1)
      ensures fresh(stringTable.Values - old(stringTable.Values))
    {
      if isValidAst {
        matched := Evaluate(doc);
      } else {
        matched := Compile(doc);
      }
    }
  }
}
