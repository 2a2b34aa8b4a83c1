/** `MMD4SolR`: one MMD record, checked for its required elements and
    converted into the SolR document the index stores. */
module Converter {
  import opened Documents
  import opened Strings
  import opened Identifiers
  import opened LastUpdate
  import opened Extent
  import opened Keywords

  // ---------------------------------------------------------------------
  // check_mmd

  /** The elements an MMD record must carry. */
  const Required: seq<string> := [
    "mmd:metadata_version", "mmd:metadata_identifier", "mmd:title", "mmd:abstract",
    "mmd:metadata_status", "mmd:dataset_production_status", "mmd:collection",
    "mmd:last_metadata_update", "mmd:iso_topic_category", "mmd:keywords"]

  /** The record after the required-element check: an empty required
      element becomes `Unknown`; an absent one stays absent (the branch
      that would add it cannot be reached). */
  function Defaulted(mmd: Doc): Doc
  {
    map k | k in mmd :: if k in Required && mmd[k] == VNone then VStr("Unknown") else mmd[k]
  }

  /** The check adds and removes no element, leaves no required element
      empty, touches nothing that was set, and a second check changes
      nothing. */
  lemma DefaultedSpec(mmd: Doc)
    ensures Defaulted(mmd).Keys == mmd.Keys
    ensures forall k :: k in Required && k in mmd ==> Defaulted(mmd)[k] != VNone
    ensures forall k :: k in mmd && mmd[k] != VNone ==> Defaulted(mmd)[k] == mmd[k]
    ensures forall k :: k in mmd && k !in Required ==> Defaulted(mmd)[k] == mmd[k]
    ensures Defaulted(Defaulted(mmd)) == Defaulted(mmd)
  {
  }

  /** The elements whose content is checked against a controlled
      vocabulary, in the order they are checked. */
  const Controlled: seq<string> := [
    "mmd:iso_topic_category", "mmd:collection", "mmd:dataset_production_status", "mmd:quality_control"]

  /** A dictionary without `#text`: reading its content raises KeyError. */
  predicate LacksText(v: Value)
  {
    v.VMap? && "#text" !in v.fields
  }

  /** A controlled element whose content cannot be read: a dictionary
      without text, or a list holding one. */
  predicate Unreadable(v: Value)
  {
    if v.VList? then exists i :: 0 <= i < |v.items| && LacksText(v.items[i]) else LacksText(v)
  }

  /** The controlled-vocabulary check only warns about content outside the
      vocabulary; it raises exactly when a controlled element present
      cannot be read. */
  function VocabularyCheck(mmd: Doc): Option<Error>
  {
    if exists j :: 0 <= j < |Controlled| && Controlled[j] in mmd && Unreadable(mmd[Controlled[j]])
    then Some(KeyError("#text"))
    else None
  }

  /** A keyword element with a vocabulary to read. */
  predicate HasVocabulary(v: Value)
  {
    v.VMap? && "@vocabulary" in v.fields
  }

  /** A keyword element whose vocabulary, as `str(...).upper()`, is `GCMDSK`. */
  predicate IsGcmdEntry(v: Value, fx: Foreign)
  {
    HasVocabulary(v) && Upper(Str(v.fields["@vocabulary"], fx)) == "GCMDSK"
  }

  /** The scan of a keyword list for a GCMD entry, which stops at the
      first one; every vocabulary read on the way must exist. */
  function VocabularyScan(items: seq<Value>, fx: Foreign): Option<Error>
    decreases |items|
  {
    if items == [] then None
    else
      match Get(items[0], "@vocabulary")
      case Failure(err) => Some(err)
      case Success(_) => if IsGcmdEntry(items[0], fx) then None else VocabularyScan(items[1..], fx)
  }

  /** The GCMD keyword check only warns when no GCMD keyword is found; it
      raises when the keywords are absent or a vocabulary it reads is. */
  function GcmdCheck(mmd: Doc, fx: Foreign): Option<Error>
  {
    match Lookup(mmd, "mmd:keywords")
    case Failure(err) => Some(err)
    case Success(VList(items)) => VocabularyScan(items, fx)
    case Success(kw) =>
      (match Get(kw, "@vocabulary")
       case Failure(err) => Some(err)
       case Success(_) => None)
  }

  /** Every element of a keyword list, up to and including the first GCMD
      one, has a vocabulary. */
  predicate ReadableUpToGcmd(items: seq<Value>, fx: Foreign)
  {
    forall j :: 0 <= j < |items| && (forall i :: 0 <= i < j ==> !IsGcmdEntry(items[i], fx)) ==>
      HasVocabulary(items[j])
  }

  /** The scan raises exactly when an element it reaches has no vocabulary. */
  lemma {:induction false} VocabularyScanSpec(items: seq<Value>, fx: Foreign)
    ensures VocabularyScan(items, fx).None? <==> ReadableUpToGcmd(items, fx)
    decreases |items|
  {
    if items != [] {
      var rest := items[1..];
      VocabularyScanSpec(rest, fx);
      if HasVocabulary(items[0]) && !IsGcmdEntry(items[0], fx) {
        if ReadableUpToGcmd(rest, fx) {
          forall j | 0 <= j < |items| && (forall i :: 0 <= i < j ==> !IsGcmdEntry(items[i], fx))
            ensures HasVocabulary(items[j])
          {
            if j > 0 {
              assert forall i :: 0 <= i < j - 1 ==> !IsGcmdEntry(rest[i], fx) by {
                forall i | 0 <= i < j - 1 ensures !IsGcmdEntry(rest[i], fx) {
                  assert rest[i] == items[i + 1];
                }
              }
              assert rest[j - 1] == items[j];
            }
          }
        }
        if ReadableUpToGcmd(items, fx) {
          forall j | 0 <= j < |rest| && (forall i :: 0 <= i < j ==> !IsGcmdEntry(rest[i], fx))
            ensures HasVocabulary(rest[j])
          {
            assert forall i :: 0 <= i < j + 1 ==> !IsGcmdEntry(items[i], fx) by {
              forall i | 0 <= i < j + 1 ensures !IsGcmdEntry(items[i], fx) {
                if i > 0 {
                  assert items[i] == rest[i - 1];
                }
              }
            }
            assert items[j + 1] == rest[j];
          }
        }
      } else if !HasVocabulary(items[0]) {
        assert !ReadableUpToGcmd(items, fx);
      }
    }
  }

  /** The GCMD check passes exactly when the keywords are present and the
      vocabularies it reads exist. */
  lemma GcmdCheckSpec(mmd: Doc, fx: Foreign)
    ensures "mmd:keywords" !in mmd ==> GcmdCheck(mmd, fx) == Some(KeyError("mmd:keywords"))
    ensures "mmd:keywords" in mmd && !mmd["mmd:keywords"].VList? ==>
      (GcmdCheck(mmd, fx).None? <==> HasVocabulary(mmd["mmd:keywords"]))
    ensures "mmd:keywords" in mmd && mmd["mmd:keywords"].VList? ==>
      (GcmdCheck(mmd, fx).None? <==> ReadableUpToGcmd(mmd["mmd:keywords"].items, fx))
  {
    if "mmd:keywords" in mmd && mmd["mmd:keywords"].VList? {
      VocabularyScanSpec(mmd["mmd:keywords"].items, fx);
    }
  }

  /** The controlled-vocabulary check as `check_mmd` runs it. */
  method ControlledVocabularies(mmd: Doc) returns (raised: Option<Error>)
    ensures raised == VocabularyCheck(mmd)
  {
    for j := 0 to |Controlled|
      invariant forall j' :: 0 <= j' < j && Controlled[j'] in mmd ==> !Unreadable(mmd[Controlled[j']])
    {
      var element := Controlled[j];
      if element in mmd {
        var content := mmd[element];
        if content.VList? {
          for i := 0 to |content.items|
            invariant forall i' :: 0 <= i' < i ==> !LacksText(content.items[i'])
          {
            var elem := content.items[i];
            if elem.VMap? && "#text" !in elem.fields {
              return Some(KeyError("#text"));
            }
          }
        } else if content.VMap? && "#text" !in content.fields {
          return Some(KeyError("#text"));
        }
      }
    }
    return None;
  }

  /** The GCMD keyword check as `check_mmd` runs it, index by index until
      the first GCMD vocabulary. */
  method GcmdScan(mmd: Doc, fx: Foreign) returns (raised: Option<Error>)
    ensures raised == GcmdCheck(mmd, fx)
  {
    if "mmd:keywords" !in mmd {
      return Some(KeyError("mmd:keywords"));
    }
    var keywords := mmd["mmd:keywords"];
    if !keywords.VList? {
      var vocabulary := Get(keywords, "@vocabulary");
      return if vocabulary.Failure? then Some(vocabulary.error) else None;
    }
    var items := keywords.items;
    var i := 0;
    while i < |items|
      invariant 0 <= i <= |items|
      invariant VocabularyScan(items[i..], fx) == VocabularyScan(items, fx)
    {
      assert items[i..][1..] == items[i + 1..];
      var vocabulary := Get(items[i], "@vocabulary");
      if vocabulary.Failure? {
        return Some(vocabulary.error);
      }
      if Upper(Str(vocabulary.value, fx)) == "GCMDSK" {
        return None;
      }
      i := i + 1;
    }
    return None;
  }

  /** The checks of `check_mmd` after the defaulting, in order: the
      controlled vocabularies, the GCMD keywords and the dates.  Each only
      warns, so a record is refused only when one of them raises. */
  function MmdChecks(mmd: Doc, fx: Foreign): Option<Error>
  {
    if VocabularyCheck(mmd).Some? then VocabularyCheck(mmd)
    else if GcmdCheck(mmd, fx).Some? then GcmdCheck(mmd, fx)
    else fx.dateChecks(mmd)
  }

  /** `check_mmd` as a whole: the defaulted record, or the exception that
      refuses it. */
  function Checked(root: Doc, fx: Foreign): Result<Doc>
  {
    var mmd := Defaulted(root);
    match MmdChecks(mmd, fx)
    case Some(err) => Failure(err)
    case None => Success(mmd)
  }

  /** A record passes `check_mmd` only when its controlled elements can be
      read, it has keywords, the vocabularies the GCMD check reads exist
      and its dates pass; what passes is the defaulted record. */
  lemma CheckedSpec(root: Doc, fx: Foreign)
    ensures Checked(root, fx).Success? <==>
      && VocabularyCheck(Defaulted(root)).None?
      && GcmdCheck(Defaulted(root), fx).None?
      && fx.dateChecks(Defaulted(root)).None?
    ensures Checked(root, fx).Success? ==>
      && Checked(root, fx).value == Defaulted(root)
      && (forall j :: 0 <= j < |Controlled| && Controlled[j] in root ==> !Unreadable(root[Controlled[j]]))
      && "mmd:keywords" in root && root["mmd:keywords"] != VNone
      && (root["mmd:keywords"].VList? ==> ReadableUpToGcmd(root["mmd:keywords"].items, fx))
      && (!root["mmd:keywords"].VList? ==> HasVocabulary(root["mmd:keywords"]))
  {
    var mmd := Defaulted(root);
    if Checked(root, fx).Success? {
      forall j | 0 <= j < |Controlled| && Controlled[j] in root
        ensures !Unreadable(root[Controlled[j]])
      {
        assert Controlled[j] in mmd;
        assert !Unreadable(mmd[Controlled[j]]);
      }
      GcmdCheckSpec(mmd, fx);
      assert "mmd:keywords" in root;
      assert root["mmd:keywords"] != VNone;
      assert mmd["mmd:keywords"] == root["mmd:keywords"];
    }
  }

  // ---------------------------------------------------------------------
  // The stages of tosolr not in a module of their own

  /** The text of `mmd:metadata_identifier` (or of its `#text`), which
      must be a string for `replace`. */
  function IdentifierText(mmd: Doc): Result<string>
  {
    var ident :- Lookup(mmd, "mmd:metadata_identifier");
    var raw :- match ident case VMap(m) => Lookup(m, "#text") case _ => Success(ident);
    match raw
    case VStr(t) => Success(t)
    case _ => Failure(AttributeError("replace"))
  }

  function IdFields(t: string): Doc
  {
    map["id" := VStr(Sanitised(t)), "metadata_identifier" := VStr(t)]
  }

  function IdStep(mmd: Doc): Step
  {
    match IdentifierText(mmd)
    case Failure(err) => Step(map[], Some(err))
    case Success(t) => Step(IdFields(t), None)
  }

  /** `metadata_status`, or its `#text`. */
  function StatusStep(mmd: Doc): Step
  {
    match Lookup(mmd, "mmd:metadata_status")
    case Failure(err) => Step(map[], Some(err))
    case Success(VMap(m)) =>
      (match Lookup(m, "#text")
       case Failure(err) => Step(map[], Some(err))
       case Success(v) => Step(map["metadata_status" := v], None))
    case Success(v) => Step(map["metadata_status" := v], None)
  }

  /** A related dataset as a parent reference: a dictionary whose
      relation type is `parent` and which has a text. */
  function ParentLink(e: Value): Result<Option<string>>
  {
    match e
    case VMap(m) =>
      if "@mmd:relation_type" in m && m["@mmd:relation_type"] == VStr("parent") && "#text" in m then
        (match m["#text"]
         case VStr(t) => Success(Some(t))
         case _ => Failure(AttributeError("replace")))
      else Success(None)
    case VStr(s) =>
      if Contains(s, "@mmd:relation_type") then Failure(TypeError("string indices must be integers"))
      else Success(None)
    case VList(l) =>
      if VStr("@mmd:relation_type") in l then Failure(TypeError("list indices must be integers or slices"))
      else Success(None)
    case _ => Failure(TypeError("argument is not iterable"))
  }

  /** Over a list of related datasets the last parent reference wins. */
  function LastParent(items: seq<Value>): Result<Option<string>>
    decreases |items|
  {
    if items == [] then Success(None)
    else
      var prev :- LastParent(items[..|items| - 1]);
      var here :- ParentLink(items[|items| - 1]);
      Success(if here.Some? then here else prev)
  }

  /** Element `j` is the list's last parent reference and names `t`. */
  predicate LastLinkAt(items: seq<Value>, j: int, t: string)
  {
    && 0 <= j < |items| && ParentLink(items[j]) == Success(Some(t))
    && forall k :: j < k < |items| ==> ParentLink(items[k]) == Success(None)
  }

  /** The parent a list names is the one of its last parent reference,
      and a list without parent references names none. */
  lemma {:induction false} LastParentSpec(items: seq<Value>, t: string)
    requires LastParent(items) == Success(Some(t))
    ensures exists j :: LastLinkAt(items, j, t)
    decreases |items|
  {
    var n := |items|;
    var pre := items[..n - 1];
    var here := ParentLink(items[n - 1]).value;
    if here.Some? {
      assert LastLinkAt(items, n - 1, t);
    } else {
      LastParentSpec(pre, t);
      var j :| LastLinkAt(pre, j, t);
      assert items[j] == pre[j];
      forall k | j < k < n
        ensures ParentLink(items[k]) == Success(None)
      {
        if k < n - 1 {
          assert items[k] == pre[k];
        }
      }
      assert LastLinkAt(items, j, t);
    }
  }

  lemma {:induction false} NoParentSpec(items: seq<Value>)
    requires LastParent(items) == Success(None)
    ensures forall k :: 0 <= k < |items| ==> ParentLink(items[k]) == Success(None)
    decreases |items|
  {
    if items != [] {
      var pre := items[..|items| - 1];
      NoParentSpec(pre);
      forall k | 0 <= k < |items|
        ensures ParentLink(items[k]) == Success(None)
      {
        if k < |pre| {
          assert items[k] == pre[k];
        }
      }
    }
  }

  lemma {:induction false} LastParentPersist(items: seq<Value>, k: nat)
    requires k <= |items|
    requires LastParent(items[..k]).Failure?
    ensures LastParent(items) == LastParent(items[..k])
    decreases |items|
  {
    if k < |items| {
      var pre := items[..|items| - 1];
      assert pre[..k] == items[..k];
      LastParentPersist(pre, k);
    } else {
      assert items[..k] == items;
    }
  }

  /** The related dataset of a record: a list is searched for its parent
      reference; a single element is taken through `dict()`, which turns
      an empty text into an empty dictionary and refuses other text. */
  function RelatedText(v: Value): Result<Option<string>>
  {
    match v
    case VList(items) => LastParent(items)
    case VMap(m) =>
      if "#text" in m then
        (match m["#text"]
         case VStr(t) => Success(Some(t))
         case _ => Failure(AttributeError("replace")))
      else Success(None)
    case VStr(s) =>
      if s == "" then Success(None)
      else Failure(ValueError("dictionary update sequence element #0 has length 1; 2 is required"))
    case _ => Failure(TypeError("object is not iterable"))
  }

  function RelatedFields(t: string): Doc
  {
    map["related_dataset" := VStr(t), "related_dataset_id" := VStr(Sanitised(t))]
  }

  function RelatedStep(mmd: Doc): Step
  {
    if "mmd:related_dataset" !in mmd then Step(map[], None)
    else
      match RelatedText(mmd["mmd:related_dataset"])
      case Failure(err) => Step(map[], Some(err))
      case Success(None) => Step(map[], None)
      case Success(Some(t)) => Step(RelatedFields(t), None)
  }

  /** The loop over a list of related datasets. */
  method FindParent(items: seq<Value>) returns (r: Result<Option<string>>)
    ensures r == LastParent(items)
  {
    var found: Option<string> := None;
    for k := 0 to |items|
      invariant LastParent(items[..k]) == Success(found)
    {
      assert items[..k + 1][..k] == items[..k];
      var here := ParentLink(items[k]);
      if here.Failure? {
        LastParentPersist(items, k + 1);
        return Failure(here.error);
      }
      if here.value.Some? {
        found := here.value;
      }
    }
    assert items[..|items|] == items;
    return Success(found);
  }

  /** The parent/child flags every converted record starts with. */
  const DefaultFlags: Doc := map["isParent" := VStr("false"), "isChild" := VStr("false")]

  // ---------------------------------------------------------------------
  // tosolr

  /** Six stages run in order, then the default flags: the first stage
      that raises decides the exception, and otherwise the document holds
      the stages' fields, later ones overriding earlier ones. */
  function Composed(s0: Step, s1: Step, s2: Step, s3: Step, s4: Step, s5: Step): Result<Doc>
  {
    if s0.raised.Some? then Failure(s0.raised.value)
    else if s1.raised.Some? then Failure(s1.raised.value)
    else if s2.raised.Some? then Failure(s2.raised.value)
    else if s3.raised.Some? then Failure(s3.raised.value)
    else if s4.raised.Some? then Failure(s4.raised.value)
    else if s5.raised.Some? then Failure(s5.raised.value)
    else Success(s0.fields + s1.fields + s2.fields + s3.fields + s4.fields + s5.fields + DefaultFlags)
  }

  /** The modelled stages of `tosolr`, in its order. */
  function Modelled(mmd: Doc, fx: Foreign): Result<Doc>
  {
    Composed(IdStep(mmd), LastUpdateStep(mmd, fx), StatusStep(mmd), ExtentStep(mmd, fx),
             RelatedStep(mmd), KeywordsStep(mmd))
  }

  /** The entries the modelled stages write. */
  const ModelledKeys: set<string> :=
    {"id", "metadata_identifier",
     "last_metadata_update_datetime", "last_metadata_update_type", "last_metadata_update_note",
     "related_dataset", "related_dataset_id",
     "keywords_keyword", "keywords_vocabulary", "keywords_gcmd", "keywords_wigos",
     "isParent", "isChild"} + ExtentFieldNames

  /** The entries of the unmodelled stages, which write none of the
      modelled ones. */
  function Outside(fields: Doc): Doc
  {
    map k | k in fields && k !in ModelledKeys :: fields[k]
  }

  /** The SolR document for a record: the modelled stages, then the
      stages not modelled; the first stage that raises decides the
      exception and the document is then not returned. */
  function Converted(mmd: Doc, fx: Foreign): Result<Doc>
  {
    var d :- Modelled(mmd, fx);
    var others := fx.stages(mmd);
    if others.raised.Some? then Failure(others.raised.value) else Success(Outside(others.fields) + d)
  }

  /** A record whose single rectangle is refused is not converted. */
  lemma InvalidRectangleRefused(mmd: Doc, fx: Foreign, rect: Doc)
    requires "mmd:geographic_extent" in mmd
    requires mmd["mmd:geographic_extent"].VMap?
    requires "mmd:rectangle" in mmd["mmd:geographic_extent"].fields
    requires mmd["mmd:geographic_extent"].fields["mmd:rectangle"] == VMap(rect)
    requires SingleRectangle(rect, fx).raised.Some?
    ensures Converted(mmd, fx).Failure?
  {
    var ext := ExtentStep(mmd, fx);
    assert ext == SingleRectangle(rect, fx);
  }

  lemma KeywordsKeys(mmd: Doc)
    ensures KeywordsStep(mmd).fields.Keys <=
      {"keywords_keyword", "keywords_vocabulary", "keywords_gcmd", "keywords_wigos"}
  {
  }

  lemma StatusKeys(mmd: Doc)
    ensures StatusStep(mmd).fields.Keys <= {"metadata_status"}
  {
  }

  lemma LastUpdateKeys(mmd: Doc, fx: Foreign)
    ensures LastUpdateStep(mmd, fx).fields.Keys <=
      {"last_metadata_update_datetime", "last_metadata_update_type", "last_metadata_update_note"}
  {
  }

  /** A merge keeps what the right-hand side does not write. */
  lemma MergeKeeps(a: Doc, b: Doc, k: string)
    requires k !in b
    ensures (k in a + b <==> k in a) && (k in a ==> (a + b)[k] == a[k])
  {
  }

  /** The merge of the stages keeps the identifier fields, which no later
      stage writes. */
  lemma ComposedKeepsId(s0: Step, s1: Step, s2: Step, s3: Step, s4: Step, s5: Step, d: Doc, k: string)
    requires Composed(s0, s1, s2, s3, s4, s5) == Success(d)
    requires k == "id" || k == "metadata_identifier"
    requires s1.fields.Keys <=
      {"last_metadata_update_datetime", "last_metadata_update_type", "last_metadata_update_note"}
    requires s2.fields.Keys <= {"metadata_status"}
    requires s3.fields.Keys <= ExtentFieldNames
    requires s4.fields.Keys <= {"related_dataset", "related_dataset_id"}
    requires s5.fields.Keys <= {"keywords_keyword", "keywords_vocabulary", "keywords_gcmd", "keywords_wigos"}
    ensures k in s0.fields ==> k in d && d[k] == s0.fields[k]
  {
    var m1 := s0.fields + s1.fields;
    var m2 := m1 + s2.fields;
    var m3 := m2 + s3.fields;
    var m4 := m3 + s4.fields;
    var m5 := m4 + s5.fields;
    assert d == m5 + DefaultFlags;
    MergeKeeps(s0.fields, s1.fields, k);
    MergeKeeps(m1, s2.fields, k);
    MergeKeeps(m2, s3.fields, k);
    MergeKeeps(m3, s4.fields, k);
    MergeKeeps(m4, s5.fields, k);
    MergeKeeps(m5, DefaultFlags, k);
  }

  /** The merge of the stages holds the parent reference fields exactly as
      the related-dataset stage wrote them. */
  lemma ComposedKeepsRelated(s0: Step, s1: Step, s2: Step, s3: Step, s4: Step, s5: Step, d: Doc, k: string)
    requires Composed(s0, s1, s2, s3, s4, s5) == Success(d)
    requires k == "related_dataset" || k == "related_dataset_id"
    requires s0.fields.Keys <= {"id", "metadata_identifier"}
    requires s1.fields.Keys <=
      {"last_metadata_update_datetime", "last_metadata_update_type", "last_metadata_update_note"}
    requires s2.fields.Keys <= {"metadata_status"}
    requires s3.fields.Keys <= ExtentFieldNames
    requires s5.fields.Keys <= {"keywords_keyword", "keywords_vocabulary", "keywords_gcmd", "keywords_wigos"}
    ensures k in d <==> k in s4.fields
    ensures k in d ==> d[k] == s4.fields[k]
  {
    var m1 := s0.fields + s1.fields;
    var m2 := m1 + s2.fields;
    var m3 := m2 + s3.fields;
    var m4 := m3 + s4.fields;
    var m5 := m4 + s5.fields;
    assert d == m5 + DefaultFlags;
    MergeKeeps(s0.fields, s1.fields, k);
    MergeKeeps(m1, s2.fields, k);
    MergeKeeps(m2, s3.fields, k);
    assert k !in m3;
    MergeKeeps(m4, s5.fields, k);
    MergeKeeps(m5, DefaultFlags, k);
  }

  /** A converted record carries its identifier unchanged in
      `metadata_identifier` and, sanitised, in `id`, which then holds no
      character SolR refuses; its parent reference, if it names one, with
      the sanitised `related_dataset_id`; and both flags set to `false`. */
  lemma ConvertedSpec(mmd: Doc, fx: Foreign, d: Doc)
    requires Converted(mmd, fx) == Success(d)
    ensures fx.stages(mmd).raised.None?
    ensures forall k :: k !in ModelledKeys ==> (k in d <==> k in fx.stages(mmd).fields)
    ensures forall k :: k !in ModelledKeys && k in d ==> d[k] == fx.stages(mmd).fields[k]
    ensures IdentifierText(mmd).Success?
    ensures var t := IdentifierText(mmd).value;
      && "id" in d && "metadata_identifier" in d
      && d["metadata_identifier"] == VStr(t) && d["id"] == VStr(Sanitised(t))
      && forall i :: 0 <= i < |Sanitised(t)| ==> !IsIllegal(Sanitised(t)[i])
    ensures "related_dataset" in d <==> RelatedStep(mmd).fields != map[]
    ensures "related_dataset" in d ==>
      && "mmd:related_dataset" in mmd
      && RelatedText(mmd["mmd:related_dataset"]).Success?
      && RelatedText(mmd["mmd:related_dataset"]).value.Some?
      && var t := RelatedText(mmd["mmd:related_dataset"]).value.value;
         "related_dataset_id" in d && d["related_dataset"] == VStr(t) && d["related_dataset_id"] == VStr(Sanitised(t))
    ensures "isParent" in d && "isChild" in d
    ensures d["isParent"] == VStr("false") && d["isChild"] == VStr("false")
  {
    ConvertedModelled(mmd, fx, d);
    ModelledSpec(mmd, fx, Modelled(mmd, fx).value);
    forall k | k !in ModelledKeys
      ensures (k in d <==> k in fx.stages(mmd).fields) && (k in d ==> d[k] == fx.stages(mmd).fields[k])
    {
      ConvertedKeepsOthers(mmd, fx, d, k);
    }
  }

  /** The same, for the document of the modelled stages alone. */
  lemma ModelledSpec(mmd: Doc, fx: Foreign, d: Doc)
    requires Modelled(mmd, fx) == Success(d)
    ensures IdentifierText(mmd).Success?
    ensures var t := IdentifierText(mmd).value;
      && "id" in d && "metadata_identifier" in d
      && d["metadata_identifier"] == VStr(t) && d["id"] == VStr(Sanitised(t))
      && forall i :: 0 <= i < |Sanitised(t)| ==> !IsIllegal(Sanitised(t)[i])
    ensures "related_dataset" in d <==> RelatedStep(mmd).fields != map[]
    ensures "related_dataset" in d ==>
      && "mmd:related_dataset" in mmd
      && RelatedText(mmd["mmd:related_dataset"]).Success?
      && RelatedText(mmd["mmd:related_dataset"]).value.Some?
      && var t := RelatedText(mmd["mmd:related_dataset"]).value.value;
         "related_dataset_id" in d && d["related_dataset"] == VStr(t) && d["related_dataset_id"] == VStr(Sanitised(t))
    ensures "isParent" in d && "isChild" in d
    ensures d["isParent"] == VStr("false") && d["isChild"] == VStr("false")
  {
    StagesFacts(mmd, fx, d);
    IdStepSpec(mmd);
    RelatedStepSpec(mmd);
    SanitisedIsClean(IdentifierText(mmd).value);
  }

  /** The entries the modelled stages write are as they wrote them. */
  lemma ConvertedModelled(mmd: Doc, fx: Foreign, d: Doc)
    requires Converted(mmd, fx) == Success(d)
    ensures Modelled(mmd, fx).Success?
    ensures forall k :: k in ModelledKeys ==>
      (k in d <==> k in Modelled(mmd, fx).value) && (k in d ==> d[k] == Modelled(mmd, fx).value[k])
  {
    var others := Outside(fx.stages(mmd).fields);
    forall k | k in ModelledKeys
      ensures (k in d <==> k in Modelled(mmd, fx).value) && (k in d ==> d[k] == Modelled(mmd, fx).value[k])
    {
      assert k !in others;
    }
  }

  /** An entry no modelled stage writes is in the document exactly when a
      stage not modelled wrote it, with that value. */
  lemma ConvertedKeepsOthers(mmd: Doc, fx: Foreign, d: Doc, k: string)
    requires Converted(mmd, fx) == Success(d)
    requires k !in ModelledKeys
    ensures fx.stages(mmd).raised.None?
    ensures k in d <==> k in fx.stages(mmd).fields
    ensures k in d ==> d[k] == fx.stages(mmd).fields[k]
  {
    ModelledKeysOnly(mmd, fx, Modelled(mmd, fx).value);
  }

  /** The modelled stages write only the modelled entries. */
  lemma ModelledKeysOnly(mmd: Doc, fx: Foreign, d: Doc)
    requires Modelled(mmd, fx) == Success(d)
    ensures d.Keys <= ModelledKeys
  {
    LastUpdateKeys(mmd, fx);
    ExtentKeys(mmd, fx);
    KeywordsKeys(mmd);
    StatusKeys(mmd);
    IdStepSpec(mmd);
    RelatedStepSpec(mmd);
  }

  /** The merge facts for the modelled stages of `tosolr`. */
  lemma StagesFacts(mmd: Doc, fx: Foreign, d: Doc)
    requires Modelled(mmd, fx) == Success(d)
    ensures IdStep(mmd).raised.None? && RelatedStep(mmd).raised.None?
    ensures forall k :: k in IdStep(mmd).fields ==> k in d && d[k] == IdStep(mmd).fields[k]
    ensures "related_dataset" in d <==> "related_dataset" in RelatedStep(mmd).fields
    ensures "related_dataset" in RelatedStep(mmd).fields ==>
      d["related_dataset"] == RelatedStep(mmd).fields["related_dataset"]
    ensures "related_dataset_id" in RelatedStep(mmd).fields ==>
      "related_dataset_id" in d && d["related_dataset_id"] == RelatedStep(mmd).fields["related_dataset_id"]
    ensures "isParent" in d && "isChild" in d
    ensures d["isParent"] == VStr("false") && d["isChild"] == VStr("false")
  {
    LastUpdateKeys(mmd, fx);
    ExtentKeys(mmd, fx);
    KeywordsKeys(mmd);
    StatusKeys(mmd);
    IdStepSpec(mmd);
    RelatedStepSpec(mmd);
    ComposedFacts(IdStep(mmd), LastUpdateStep(mmd, fx), StatusStep(mmd), ExtentStep(mmd, fx),
                  RelatedStep(mmd), KeywordsStep(mmd), d);
  }

  /** A stage that does not raise has read the identifier. */
  lemma IdStepSpec(mmd: Doc)
    ensures IdStep(mmd).fields.Keys <= {"id", "metadata_identifier"}
    ensures IdStep(mmd).raised.None? ==>
      IdentifierText(mmd).Success? && IdStep(mmd).fields == IdFields(IdentifierText(mmd).value)
  {
  }

  /** The related-dataset stage writes both reference fields or none, and
      writes them only for a record naming a parent. */
  lemma RelatedStepSpec(mmd: Doc)
    ensures RelatedStep(mmd).fields.Keys <= {"related_dataset", "related_dataset_id"}
    ensures RelatedStep(mmd).fields != map[] ==>
      && "mmd:related_dataset" in mmd
      && RelatedText(mmd["mmd:related_dataset"]).Success?
      && RelatedText(mmd["mmd:related_dataset"]).value.Some?
      && RelatedStep(mmd).fields == RelatedFields(RelatedText(mmd["mmd:related_dataset"]).value.value)
  {
  }

  /** What the merge of six stages that did not raise holds, given which
      fields each stage may write. */
  lemma ComposedFacts(s0: Step, s1: Step, s2: Step, s3: Step, s4: Step, s5: Step, d: Doc)
    requires Composed(s0, s1, s2, s3, s4, s5) == Success(d)
    requires s0.fields.Keys <= {"id", "metadata_identifier"}
    requires s1.fields.Keys <=
      {"last_metadata_update_datetime", "last_metadata_update_type", "last_metadata_update_note"}
    requires s2.fields.Keys <= {"metadata_status"}
    requires s3.fields.Keys <= ExtentFieldNames
    requires s4.fields.Keys <= {"related_dataset", "related_dataset_id"}
    requires s5.fields.Keys <= {"keywords_keyword", "keywords_vocabulary", "keywords_gcmd", "keywords_wigos"}
    ensures s0.raised.None? && s4.raised.None?
    ensures forall k :: k in s0.fields ==> k in d && d[k] == s0.fields[k]
    ensures "related_dataset" in d <==> "related_dataset" in s4.fields
    ensures "related_dataset" in s4.fields ==> d["related_dataset"] == s4.fields["related_dataset"]
    ensures "related_dataset_id" in s4.fields ==>
      "related_dataset_id" in d && d["related_dataset_id"] == s4.fields["related_dataset_id"]
    ensures "isParent" in d && "isChild" in d
    ensures d["isParent"] == VStr("false") && d["isChild"] == VStr("false")
  {
    forall k | k in s0.fields
      ensures k in d && d[k] == s0.fields[k]
    {
      ComposedKeepsId(s0, s1, s2, s3, s4, s5, d, k);
    }
    ComposedKeepsRelated(s0, s1, s2, s3, s4, s5, d, "related_dataset");
    ComposedKeepsRelated(s0, s1, s2, s3, s4, s5, d, "related_dataset_id");
  }

  /** The identifier stage as `tosolr` runs it. */
  method Identifier(mmd: Doc) returns (st: Step)
    ensures st == IdStep(mmd)
  {
    var ident := IdentifierText(mmd);
    if ident.Failure? {
      return Step(map[], Some(ident.error));
    }
    var myid := SanitiseId(ident.value);
    st := Step(map["id" := VStr(myid), "metadata_identifier" := VStr(ident.value)], None);
  }

  /** The related-dataset stage as `tosolr` runs it: a list is scanned
      for its parent reference, a single element is read directly. */
  method RelatedDataset(mmd: Doc) returns (st: Step)
    ensures st == RelatedStep(mmd)
  {
    if "mmd:related_dataset" !in mmd {
      return Step(map[], None);
    }
    var rel: Result<Option<string>>;
    if mmd["mmd:related_dataset"].VList? {
      rel := FindParent(mmd["mmd:related_dataset"].items);
    } else {
      rel := RelatedText(mmd["mmd:related_dataset"]);
    }
    if rel.Failure? {
      return Step(map[], Some(rel.error));
    }
    st := Step(map[], None);
    if rel.value.Some? {
      var parentId := SanitiseId(rel.value.value);
      st := Step(map["related_dataset" := VStr(rel.value.value), "related_dataset_id" := VStr(parentId)], None);
    }
  }

  // ---------------------------------------------------------------------
  // The class

  class MMD4SolR {
    /** The children of the record's `mmd:mmd` root element. */
    var mmd: Doc

    constructor(root: Doc)
      ensures mmd == root
    {
      mmd := root;
    }

    /** `check_mmd`: the required-element check, rewriting the record in
      place, then the checks that may refuse it. */
    method CheckMmd(fx: Foreign) returns (raised: Option<Error>)
      modifies this
      ensures mmd == Defaulted(old(mmd))
      ensures raised == MmdChecks(mmd, fx)
    {
      ghost var orig := mmd;
      for k := 0 to |Required|
        invariant mmd.Keys == orig.Keys
        invariant forall key :: key in mmd ==>
          mmd[key] == if key in Required[..k] && orig[key] == VNone then VStr("Unknown") else orig[key]
      {
        var requirement := Required[k];
        assert Required[..k + 1] == Required[..k] + [requirement];
        if requirement in mmd {
          if mmd[requirement] != VNone {
          } else {
            mmd := mmd[requirement := VStr("Unknown")];
          }
        }
      }
      assert Required[..|Required|] == Required;
      raised := ControlledVocabularies(mmd);
      if raised.Some? {
        return;
      }
      raised := GcmdScan(mmd, fx);
      if raised.Some? {
        return;
      }
      raised := fx.dateChecks(mmd);
    }

    /** `tosolr`, stage by stage, the stages not modelled last. */
    method ToSolr(fx: Foreign) returns (r: Result<Doc>)
      ensures r == Converted(mmd, fx)
    {
      var s0 := Identifier(mmd);
      if s0.raised.Some? {
        return Failure(s0.raised.value);
      }
      var mydict := s0.fields;

      var s1 := LastMetadataUpdate(mmd, fx);
      if s1.raised.Some? {
        return Failure(s1.raised.value);
      }
      mydict := mydict + s1.fields;

      var s2 := StatusStep(mmd);
      if s2.raised.Some? {
        return Failure(s2.raised.value);
      }
      mydict := mydict + s2.fields;

      var s3 := GeographicExtent(mmd, fx);
      if s3.raised.Some? {
        return Failure(s3.raised.value);
      }
      mydict := mydict + s3.fields;

      var s4 := RelatedDataset(mmd);
      if s4.raised.Some? {
        return Failure(s4.raised.value);
      }
      mydict := mydict + s4.fields;

      var s5 := Keywords.Keywords(mmd);
      if s5.raised.Some? {
        return Failure(s5.raised.value);
      }
      mydict := mydict + s5.fields;
      mydict := mydict + DefaultFlags;

      var others := fx.stages(mmd);
      if others.raised.Some? {
        return Failure(others.raised.value);
      }
      r := Success(Outside(others.fields) + mydict);
    }
  }
}
