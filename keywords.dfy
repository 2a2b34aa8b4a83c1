/** The keywords stage of `tosolr`.  Every keyword becomes an entry of
    `keywords_keyword` with its vocabulary at the same position of
    `keywords_vocabulary`; keywords from the GCMD science keywords
    vocabulary (`GCMDSK`) are indexed a second time in `keywords_gcmd`,
    which SolR facets on.  `keywords_wigos` is created empty. */
module Keywords {
  import opened Documents

  /** A keyword with the vocabulary its list declares. */
  datatype Entry = Entry(keyword: Value, vocabulary: Value)

  const Gcmd: Value := VStr("GCMDSK")

  // ---------------------------------------------------------------------
  // Which keywords a `mmd:keywords` element yields

  /** One item of a keyword list of `m`; with `textOnly`, items that are
      not text are passed over.  The vocabulary is looked up per item. */
  function KeywordItem(m: Doc, textOnly: bool): Value -> Result<seq<Entry>>
  {
    (item: Value) =>
      if textOnly && !item.VStr? then Success([])
      else
        var voc :- Lookup(m, "@vocabulary");
        Success([Entry(item, voc)])
  }

  /** A single keyword list.  A text keyword is taken with its vocabulary;
      of a list only the text items are taken; a dictionary can only be
      walked by its keys when it is empty. */
  function DictEntries(m: Doc): Result<seq<Entry>>
  {
    var kw :- Lookup(m, "mmd:keyword");
    match kw
    case VStr(_) =>
      var voc :- Lookup(m, "@vocabulary");
      Success([Entry(kw, voc)])
    case VList(items) => Collect(items, KeywordItem(m, true))
    case VMap(km) => if |km| == 0 then Success([]) else Failure(KeyError("0"))
    case _ => Failure(TypeError("object has no len()"))
  }

  /** One element of a repeated `mmd:keywords`: anything but a dictionary,
      and a dictionary with fewer than two entries, is passed over; every
      item of a keyword list is taken, text or not. */
  function ElementEntries(e: Value): Result<seq<Entry>>
  {
    match e
    case VMap(em) =>
      if |em| < 2 then Success([])
      else
        var kw :- Lookup(em, "mmd:keyword");
        (match kw
         case VList(ks) => Collect(ks, KeywordItem(em, false))
         case _ =>
           var voc :- Lookup(em, "@vocabulary");
           Success([Entry(kw, voc)]))
    case _ => Success([])
  }

  function ElementEntriesOf(): Value -> Result<seq<Entry>>
  {
    (e: Value) => ElementEntries(e)
  }

  /** The entries of `mmd:keywords`: one list, several, or (for anything
      else) the TypeError of subscripting it with `@vocabulary`. */
  function KeywordEntries(kws: Value): Result<seq<Entry>>
  {
    match kws
    case VMap(m) => DictEntries(m)
    case VList(items) => Collect(items, ElementEntriesOf())
    case _ => Failure(Get(kws, "@vocabulary").error)
  }

  // ---------------------------------------------------------------------
  // The lists written

  datatype KeywordLists = KeywordLists(keyword: seq<Value>, vocabulary: seq<Value>, gcmd: seq<Value>)

  const NoKeywords := KeywordLists([], [], [])

  /** The appends made for one keyword. */
  function Add(l: KeywordLists, e: Entry): KeywordLists
  {
    KeywordLists(l.keyword + [e.keyword], l.vocabulary + [e.vocabulary],
                 if e.vocabulary == Gcmd then l.gcmd + [e.keyword] else l.gcmd)
  }

  function AddAll(l: KeywordLists, es: seq<Entry>): KeywordLists
    decreases |es|
  {
    if es == [] then l else Add(AddAll(l, es[..|es| - 1]), es[|es| - 1])
  }

  function Extended(l: KeywordLists, r: Result<seq<Entry>>): Result<KeywordLists>
  {
    match r
    case Success(es) => Success(AddAll(l, es))
    case Failure(err) => Failure(err)
  }

  lemma {:induction false} AddAllAppend(l: KeywordLists, a: seq<Entry>, b: seq<Entry>)
    ensures AddAll(l, a + b) == AddAll(AddAll(l, a), b)
    decreases |b|
  {
    if b == [] {
      assert a + b == a;
    } else {
      var b' := b[..|b| - 1];
      assert (a + b)[..|a + b| - 1] == a + b';
      AddAllAppend(l, a, b');
    }
  }

  /** The GCMD keywords of a set of entries, in order: an independent
      statement of the filter. */
  function GcmdKeywords(es: seq<Entry>): (r: seq<Value>)
    ensures forall x :: x in r <==> exists j :: 0 <= j < |es| && es[j].vocabulary == Gcmd && es[j].keyword == x
    decreases |es|
  {
    if es == [] then []
    else (if es[0].vocabulary == Gcmd then [es[0].keyword] else []) + GcmdKeywords(es[1..])
  }

  lemma {:induction false} GcmdKeywordsAppend(es: seq<Entry>, e: Entry)
    ensures GcmdKeywords(es + [e]) == GcmdKeywords(es) + (if e.vocabulary == Gcmd then [e.keyword] else [])
    decreases |es|
  {
    if es != [] {
      assert (es + [e])[1..] == es[1..] + [e];
      GcmdKeywordsAppend(es[1..], e);
    }
  }

  /** The lists are parallel, entry j of each from keyword j, and
      `keywords_gcmd` holds exactly the GCMDSK keywords, in order. */
  lemma {:induction false} ListsSpec(es: seq<Entry>)
    ensures var l := AddAll(NoKeywords, es);
      && |l.keyword| == |es| && |l.vocabulary| == |es|
      && (forall j :: 0 <= j < |es| ==> l.keyword[j] == es[j].keyword && l.vocabulary[j] == es[j].vocabulary)
      && l.gcmd == GcmdKeywords(es)
    decreases |es|
  {
    if es != [] {
      var pre := es[..|es| - 1];
      ListsSpec(pre);
      GcmdKeywordsAppend(pre, es[|es| - 1]);
      assert pre + [es[|es| - 1]] == es;
    }
  }

  /** Every GCMD keyword is also among the keywords, so `keywords_gcmd`
      is never longer than `keywords_keyword`. */
  lemma GcmdAmongKeywords(es: seq<Entry>)
    ensures var l := AddAll(NoKeywords, es);
      (forall x :: x in l.gcmd ==> x in l.keyword) && |l.gcmd| <= |l.keyword|
  {
    ListsSpec(es);
    var l := AddAll(NoKeywords, es);
    forall x | x in l.gcmd
      ensures x in l.keyword
    {
      var j :| 0 <= j < |es| && es[j].vocabulary == Gcmd && es[j].keyword == x;
      assert l.keyword[j] == x;
    }
    GcmdNoLonger(es);
  }

  lemma {:induction false} GcmdNoLonger(es: seq<Entry>)
    ensures |GcmdKeywords(es)| <= |es|
    decreases |es|
  {
    if es != [] {
      GcmdNoLonger(es[1..]);
    }
  }

  /** Of a single list, only text keywords are taken. */
  lemma {:induction false} DictListTakesText(m: Doc, items: seq<Value>, es: seq<Entry>)
    requires Collect(items, KeywordItem(m, true)) == Success(es)
    ensures forall j :: 0 <= j < |es| ==> es[j].keyword.VStr? && es[j].keyword in items
    decreases |items|
  {
    if items != [] {
      var pre := items[..|items| - 1];
      var last := items[|items| - 1];
      var prev := Collect(pre, KeywordItem(m, true)).value;
      DictListTakesText(m, pre, prev);
      var more := KeywordItem(m, true)(last).value;
      assert es == prev + more;
      forall j | 0 <= j < |es|
        ensures es[j].keyword.VStr? && es[j].keyword in items
      {
        if j < |prev| {
          assert es[j] == prev[j];
          assert es[j].keyword in pre;
        } else {
          assert es[j] == more[j - |prev|] && more[j - |prev|].keyword == last;
        }
      }
    }
  }

  // ---------------------------------------------------------------------
  // The loops of `tosolr`

  /** `for i in range(len(keyword))`, appending each item taken. */
  method AddKeywordList(ks: seq<Value>, m: Doc, textOnly: bool, l: KeywordLists) returns (r: Result<KeywordLists>)
    ensures r == Extended(l, Collect(ks, KeywordItem(m, textOnly)))
  {
    var f := KeywordItem(m, textOnly);
    var acc := l;
    ghost var es: seq<Entry> := [];
    for j := 0 to |ks|
      invariant Collect(ks[..j], f) == Success(es)
      invariant acc == AddAll(l, es)
    {
      var item := ks[j];
      if textOnly && !item.VStr? {
        CollectStep(ks, f, j, es, []);
        assert es + [] == es;
        continue;
      }
      if "@vocabulary" !in m {
        CollectStop(ks, f, j, es);
        return Failure(KeyError("@vocabulary"));
      }
      var voc := m["@vocabulary"];
      CollectStep(ks, f, j, es, [Entry(item, voc)]);
      assert AddAll(l, es + [Entry(item, voc)]) == Add(AddAll(l, es), Entry(item, voc)) by {
        assert (es + [Entry(item, voc)])[..|es|] == es;
      }
      acc := Add(acc, Entry(item, voc));
      es := es + [Entry(item, voc)];
    }
    assert ks[..|ks|] == ks;
    r := Success(acc);
  }

  /** One element of a repeated `mmd:keywords`. */
  method AddElement(e: Value, l: KeywordLists) returns (r: Result<KeywordLists>)
    ensures r == Extended(l, ElementEntries(e))
  {
    if !e.VMap? || |e.fields| < 2 {
      return Success(l);
    }
    var em := e.fields;
    if "mmd:keyword" !in em {
      return Failure(KeyError("mmd:keyword"));
    }
    var kw := em["mmd:keyword"];
    if kw.VList? {
      r := AddKeywordList(kw.items, em, false, l);
    } else if "@vocabulary" !in em {
      r := Failure(KeyError("@vocabulary"));
    } else {
      r := Success(Add(l, Entry(kw, em["@vocabulary"])));
      assert AddAll(l, [Entry(kw, em["@vocabulary"])]) == Add(l, Entry(kw, em["@vocabulary"]));
    }
  }

  /** The keyword lists of a `mmd:keywords` element. */
  method BuildKeywords(kws: Value) returns (r: Result<KeywordLists>)
    ensures r == Extended(NoKeywords, KeywordEntries(kws))
  {
    match kws {
      case VMap(m) =>
        if "mmd:keyword" !in m {
          return Failure(KeyError("mmd:keyword"));
        }
        var kw := m["mmd:keyword"];
        if kw.VStr? {
          if "@vocabulary" !in m {
            return Failure(KeyError("@vocabulary"));
          }
          r := Success(Add(NoKeywords, Entry(kw, m["@vocabulary"])));
          assert AddAll(NoKeywords, [Entry(kw, m["@vocabulary"])]) == r.value;
        } else if kw.VList? {
          r := AddKeywordList(kw.items, m, true, NoKeywords);
        } else if kw.VMap? {
          r := if |kw.fields| == 0 then Success(NoKeywords) else Failure(KeyError("0"));
        } else {
          r := Failure(TypeError("object has no len()"));
        }
      case VList(items) =>
        var f := ElementEntriesOf();
        var acc := NoKeywords;
        ghost var es: seq<Entry> := [];
        for i := 0 to |items|
          invariant Collect(items[..i], f) == Success(es)
          invariant acc == AddAll(NoKeywords, es)
        {
          var step := AddElement(items[i], acc);
          if step.Failure? {
            CollectStop(items, f, i, es);
            return Failure(step.error);
          }
          var more := ElementEntries(items[i]).value;
          CollectStep(items, f, i, es, more);
          AddAllAppend(NoKeywords, es, more);
          acc := step.value;
          es := es + more;
        }
        assert items[..|items|] == items;
        r := Success(acc);
      case _ =>
        r := Failure(Get(kws, "@vocabulary").error);
    }
  }

  /** The entries written for a set of keyword lists. */
  function KeywordFields(l: KeywordLists): Doc
  {
    map["keywords_keyword" := VList(l.keyword), "keywords_vocabulary" := VList(l.vocabulary),
        "keywords_gcmd" := VList(l.gcmd), "keywords_wigos" := VList([])]
  }

  /** The stage: nothing when the element is absent. */
  function KeywordsStep(mmd: Doc): Step
  {
    if "mmd:keywords" !in mmd then Step(map[], None)
    else
      match KeywordEntries(mmd["mmd:keywords"])
      case Failure(err) => Step(map[], Some(err))
      case Success(es) => Step(KeywordFields(AddAll(NoKeywords, es)), None)
  }

  method Keywords(mmd: Doc) returns (st: Step)
    ensures st == KeywordsStep(mmd)
  {
    if "mmd:keywords" !in mmd {
      return Step(map[], None);
    }
    var r := BuildKeywords(mmd["mmd:keywords"]);
    match r {
      case Failure(err) => st := Step(map[], Some(err));
      case Success(l) => st := Step(KeywordFields(l), None);
    }
  }
}
