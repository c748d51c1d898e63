/**
 The two providers that read pjsip_wizard.conf through one matcher, which they keep for the whole file and from one
 reading of the file to the next.
 */
module Providers {
  import opened Basics
  import opened CallerId
  import opened Matcher
  import opened Text

  const AUTH := "endpoint/auth"
  const CALLER_ID := "endpoint/callerid"

  /** A provider's matcher, built from the match text and the symbol maps of its configuration. */
  method CreateMatcher(source: Source, config: seq<Mapping>) returns (matcher: ExpressionMatcher)
    ensures fresh(matcher) && matcher.Valid() && matcher.source == source && matcher.stringTable == map[]
    ensures forall i, symbol :: FirstAt(config, i, symbol) ==>
              symbol in matcher.symbolMap && matcher.symbolMap[symbol] == config[i].key
    ensures forall symbol :: symbol in matcher.symbolMap ==> exists i :: FirstAt(config, i, symbol)
  {
    var symbolMap := CreateSymbolMap(config);
    matcher := new ExpressionMatcher(source, symbolMap);
  }

  /**
   The answers on the documents of a file, one after another. For a match text that compares a symbol with a literal:
   true for the documents that have this value under the key that the symbol is first mapped to, or under the symbol
   itself when it is not mapped.
   */
  method AnswerAll(source: Source, config: seq<Mapping>, docs: seq<Doc>) returns (answers: seq<bool>)
    ensures |answers| == |docs|
    ensures source.Good? && source.expr.Compare? && source.expr.relation.Equal?
            && source.expr.left.Symbol? && source.expr.right.Literal? ==>
              var s, t := source.expr.left.name, source.expr.right.text;
              && (forall i, k :: FirstAt(config, i, s) && 0 <= k < |docs| ==>
                    (answers[k] <==> config[i].key in docs[k] && docs[k][config[i].key] == t))
              && ((forall i :: !FirstAt(config, i, s)) ==>
                    forall k :: 0 <= k < |docs| ==> (answers[k] <==> s in docs[k] && docs[k][s] == t))
  {
    hide Matches;
    var matcher := CreateMatcher(source, config);
    answers := [];
    for n := 0 to |docs|
      invariant fresh(matcher) && fresh(matcher.stringTable.Values) && matcher.Valid() && |answers| == n
      invariant forall k :: 0 <= k < n ==> answers[k] == Matches(source, matcher.symbolMap, docs[k])
    {
      var answer := matcher.IsMatch(docs[n]);
      answers := answers + [answer];
    }
    if source.Good? && source.expr.Compare? && source.expr.relation.Equal?
       && source.expr.left.Symbol? && source.expr.right.Literal? {
      var s, t := source.expr.left.name, source.expr.right.text;
      assert source == Good(Compare(Symbol(s), Equal, Literal(t)));
      forall k | 0 <= k < |docs| {
        SymbolAgainstLiteral(s, t, matcher.symbolMap, docs[k]);
      }
    }
  }

  // ---------- Addresses of record ----------

  /** The address that a document contributes, if any. */
  function AorOf(source: Source, symbolMap: SymbolMap, doc: Doc): Option<string> {
    if Matches(source, symbolMap, doc) && AUTH in doc then Some(doc[AUTH]) else None
  }

  /** Some matching document has this address. */
  ghost predicate HasAor(source: Source, symbolMap: SymbolMap, docs: seq<Doc>, aor: string) {
    exists i :: 0 <= i < |docs| && AorOf(source, symbolMap, docs[i]) == Some(aor)
  }

  method GetCompatibleAors(matcher: ExpressionMatcher, docs: seq<Doc>) returns (aors: set<string>)
    requires matcher.Valid()
    modifies matcher, matcher.stringTable.Values
    ensures matcher.Valid() && fresh(matcher.stringTable.Values - old(matcher.stringTable.Values))
    ensures forall aor :: aor in aors <==> HasAor(matcher.source, matcher.symbolMap, docs, aor)
    ensures forall aor :: aor in aors <==>
              exists i :: 0 <= i < |docs| && Matches(matcher.source, matcher.symbolMap, docs[i])
                          && "endpoint/auth" in docs[i] && docs[i]["endpoint/auth"] == aor
  {
    hide Matches;
    aors := {};
    for i := 0 to |docs|
      invariant matcher.Valid() && fresh(matcher.stringTable.Values - old(matcher.stringTable.Values))
      invariant forall aor :: aor in aors <==> HasAor(matcher.source, matcher.symbolMap, docs[..i], aor)
    {
      var matched := matcher.IsMatch(docs[i]);
      AorsSnoc(matcher.source, matcher.symbolMap, docs, i);
      if matched && AUTH in docs[i] {
        aors := aors + {docs[i][AUTH]};
      }
    }
    assert docs[..|docs|] == docs;
    AorsAreAuths(matcher.source, matcher.symbolMap, docs);
  }

  lemma AorsAreAuths(source: Source, symbolMap: SymbolMap, docs: seq<Doc>)
    ensures forall aor :: HasAor(source, symbolMap, docs, aor) <==>
              exists i :: 0 <= i < |docs| && Matches(source, symbolMap, docs[i])
                          && "endpoint/auth" in docs[i] && docs[i]["endpoint/auth"] == aor
  {
    hide Matches;
    forall aor
      ensures HasAor(source, symbolMap, docs, aor) <==>
              exists i :: 0 <= i < |docs| && Matches(source, symbolMap, docs[i])
                          && "endpoint/auth" in docs[i] && docs[i]["endpoint/auth"] == aor
    {
      if HasAor(source, symbolMap, docs, aor) {
        var i :| 0 <= i < |docs| && AorOf(source, symbolMap, docs[i]) == Some(aor);
      }
      if i :| 0 <= i < |docs| && Matches(source, symbolMap, docs[i])
              && "endpoint/auth" in docs[i] && docs[i]["endpoint/auth"] == aor {
        assert AorOf(source, symbolMap, docs[i]) == Some(aor);
      }
    }
  }

  lemma AorsSnoc(source: Source, symbolMap: SymbolMap, docs: seq<Doc>, i: nat)
    requires i < |docs|
    ensures forall aor :: HasAor(source, symbolMap, docs[..i + 1], aor)
                     <==> HasAor(source, symbolMap, docs[..i], aor) || AorOf(source, symbolMap, docs[i]) == Some(aor)
  {
    hide AorOf;
    var more := docs[..i + 1];
    assert more[i] == docs[i] && forall j :: 0 <= j < i ==> more[j] == docs[..i][j];
  }

  /** The set does not depend on the order of the documents in the file, nor on repetitions. */
  lemma OrderOfDocsIrrelevant(source: Source, symbolMap: SymbolMap, docs: seq<Doc>, others: seq<Doc>, aor: string)
    requires forall d :: d in docs <==> d in others
    ensures HasAor(source, symbolMap, docs, aor) <==> HasAor(source, symbolMap, others, aor)
  {
    hide AorOf;
    if HasAor(source, symbolMap, docs, aor) {
      var i :| 0 <= i < |docs| && AorOf(source, symbolMap, docs[i]) == Some(aor);
      assert docs[i] in others;
    }
    if HasAor(source, symbolMap, others, aor) {
      var i :| 0 <= i < |others| && AorOf(source, symbolMap, others[i]) == Some(aor);
      assert others[i] in docs;
    }
  }

  // ---------- Caller IDs ----------

  /** The entry that a document yields: one that matches and has a caller ID that is not empty. */
  function EntryOf(source: Source, symbolMap: SymbolMap, doc: Doc): Option<Details> {
    if Matches(source, symbolMap, doc) && CALLER_ID in doc && doc[CALLER_ID] != "" then Some(Extract(doc[CALLER_ID]))
    else None
  }

  function Entries(source: Source, symbolMap: SymbolMap, docs: seq<Doc>): seq<Details> {
    if docs == [] then []
    else
      var entry := EntryOf(source, symbolMap, docs[|docs| - 1]);
      Entries(source, symbolMap, docs[..|docs| - 1]) + if entry.Some? then [entry.value] else []
  }

  method GetCallerDetails(matcher: ExpressionMatcher, docs: seq<Doc>) returns (entries: seq<Details>)
    requires matcher.Valid()
    modifies matcher, matcher.stringTable.Values
    ensures matcher.Valid() && fresh(matcher.stringTable.Values - old(matcher.stringTable.Values))
    ensures entries == Entries(matcher.source, matcher.symbolMap, docs)
  {
    hide Matches, Extract;
    entries := [];
    for i := 0 to |docs|
      invariant matcher.Valid() && fresh(matcher.stringTable.Values - old(matcher.stringTable.Values))
      invariant entries == Entries(matcher.source, matcher.symbolMap, docs[..i])
    {
      var matched := matcher.IsMatch(docs[i]);
      assert docs[..i + 1][..i] == docs[..i];
      if matched && CALLER_ID in docs[i] {
        var callerId := docs[i][CALLER_ID];
        if callerId != "" {
          entries := entries + [Extract(callerId)];
        }
      }
    }
    assert docs[..|docs|] == docs;
  }

  /** Which documents yield an entry, and what it is: the two captures of the caller ID pattern. */
  lemma EntryExactly(source: Source, symbolMap: SymbolMap, doc: Doc, name: string, number: string)
    requires QUOTE !in name && AllDigits(number)
    ensures EntryOf(source, symbolMap, doc).Some? <==>
              Matches(source, symbolMap, doc) && "endpoint/callerid" in doc && doc["endpoint/callerid"] != ""
    ensures Matches(source, symbolMap, doc) && "endpoint/callerid" in doc
            && doc["endpoint/callerid"] == "\"" + name + "\" <" + number + ">" ==>
              EntryOf(source, symbolMap, doc) == Some(Details(name, number))
  {
    hide Matches, Extract;
    WrittenOut(name, number);
  }

  /** Positions of the documents that yield an entry. */
  ghost function Positions(source: Source, symbolMap: SymbolMap, docs: seq<Doc>): seq<int> {
    if docs == [] then []
    else
      var last := |docs| - 1;
      Positions(source, symbolMap, docs[..last])
      + if EntryOf(source, symbolMap, docs[last]).Some? then [last] else []
  }

  /** They are in file order, and none is missing. */
  lemma {:induction false} PositionsExactly(source: Source, symbolMap: SymbolMap, docs: seq<Doc>)
    ensures forall j, k :: 0 <= j < k < |Positions(source, symbolMap, docs)| ==>
              Positions(source, symbolMap, docs)[j] < Positions(source, symbolMap, docs)[k]
    ensures forall i :: i in Positions(source, symbolMap, docs) <==>
              0 <= i < |docs| && EntryOf(source, symbolMap, docs[i]).Some?
  {
    hide EntryOf;
    if docs != [] {
      var last := |docs| - 1;
      var before := Positions(source, symbolMap, docs[..last]);
      PositionsExactly(source, symbolMap, docs[..last]);
      assert forall k :: 0 <= k < |before| ==> before[k] in before;
      assert forall i :: 0 <= i < last ==> docs[..last][i] == docs[i];
    }
  }

  /** The entries are those of the documents at these positions, in file order: nothing dropped, added or reordered. */
  lemma {:induction false} EntriesInFileOrder(source: Source, symbolMap: SymbolMap, docs: seq<Doc>)
    ensures var at := Positions(source, symbolMap, docs);
            && |Entries(source, symbolMap, docs)| == |at|
            && forall k :: 0 <= k < |at| ==>
                 && 0 <= at[k] < |docs|
                 && EntryOf(source, symbolMap, docs[at[k]]) == Some(Entries(source, symbolMap, docs)[k])
  {
    hide EntryOf;
    if docs != [] {
      EntriesInFileOrder(source, symbolMap, docs[..|docs| - 1]);
    }
  }
}
