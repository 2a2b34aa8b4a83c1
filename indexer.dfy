/** The indexing run: every candidate file is parsed, checked and
    converted, classified as a parent (`Level-1`) or a child (`Level-2`),
    parents referred to by children in the same run are flagged, and the
    records are sent to SolR in batches. */
module Indexer {
  import opened Documents
  import opened Strings
  import opened Identifiers
  import opened Converter

  /** The command-line options the run depends on: the directory the file
      names are relative to (empty when not given) and `--no_thumbnail`. */
  datatype Options = Options(directory: string, noThumbnail: bool)

  // ---------------------------------------------------------------------
  // Which files are read

  /** `os.path.join` of two POSIX paths. */
  function Join(dir: string, f: string): string
  {
    if StartsWith(f, "/") then f
    else if dir == [] || EndsWith(dir, "/") then dir + f
    else dir + "/" + f
  }

  /** The path read for a listed file name, or nothing when the name, once
      stripped, does not end in `.xml`. */
  function Candidate(myfile: string, directory: string): Option<string>
  {
    var f := Strip(myfile);
    if !EndsWith(f, ".xml") then None
    else if directory != [] then Some(Join(directory, f))
    else Some(f)
  }

  /** Only names ending in `.xml` are read, and the path read ends with the
      stripped name. */
  lemma CandidateSpec(myfile: string, directory: string)
    ensures Candidate(myfile, directory).Some? <==> EndsWith(Strip(myfile), ".xml")
    ensures Candidate(myfile, directory).Some? ==> EndsWith(Candidate(myfile, directory).value, Strip(myfile))
    ensures Candidate(myfile, directory).Some? && directory == [] ==> Candidate(myfile, directory).value == Strip(myfile)
  {
    var f := Strip(myfile);
    if EndsWith(f, ".xml") && directory != [] && !StartsWith(f, "/") {
      var p := Join(directory, f);
      if EndsWith(directory, "/") {
        assert p[|p| - |f|..] == f;
      } else {
        assert p == (directory + "/") + f;
        assert p[|p| - |f|..] == f;
      }
    }
  }

  // ---------------------------------------------------------------------
  // Parent/child classification of one converted record

  /** The prefixes of harvested parent references that are removed, and
      the file suffix. */
  const NpiPrefixes: seq<string> := [
    "https://data.npolar.no/dataset/", "http://data.npolar.no/dataset/", "http://api.npolar.no/dataset/"]

  function WithoutNpi(s: string): string
  {
    ReplaceAll(ReplaceAll(ReplaceAll(ReplaceAll(s, NpiPrefixes[0], ""), NpiPrefixes[1], ""), NpiPrefixes[2], ""), ".xml", "")
  }

  /** A reference holding none of the prefixes and no `.xml` is kept. */
  lemma WithoutNpiKeeps(s: string)
    requires forall k :: 0 <= k < |NpiPrefixes| ==> !Contains(s, NpiPrefixes[k])
    requires !Contains(s, ".xml")
    ensures WithoutNpi(s) == s
  {
    ReplaceAbsent(s, NpiPrefixes[0], "");
    ReplaceAbsent(s, NpiPrefixes[1], "");
    ReplaceAbsent(s, NpiPrefixes[2], "");
    ReplaceAbsent(s, ".xml", "");
  }

  /** What becomes of a converted record: it is skipped, or admitted with
      the parent identifier it contributes, if any. */
  datatype Admission = Skipped | Admitted(doc: Doc, parentId: Option<string>)

  /** A record referring to a parent becomes a `Level-2` child, unless
      the reference is a DOI; any other record becomes a `Level-1` parent. */
  function Classify(newdoc: Doc): Admission
    requires "related_dataset" in newdoc ==> newdoc["related_dataset"].VStr?
  {
    if "related_dataset" in newdoc then
      var rd := WithoutNpi(newdoc["related_dataset"].s);
      if Contains(rd, "doi.org") then Skipped
      else
        Admitted(newdoc["related_dataset" := VStr(rd)]["isChild" := VStr("true")]["dataset_type" := VStr("Level-2")],
                 Some(Sanitised(rd)))
    else
      Admitted(newdoc["isParent" := VStr("false")]["dataset_type" := VStr("Level-1")], None)
  }

  /** The keys classification may rewrite. */
  const ClassKeys: set<string> := {"related_dataset", "isChild", "isParent", "dataset_type"}

  /** Classification skips exactly the records whose cleaned reference is
      a DOI; a child gets the cleaned reference, `isChild` and `Level-2`
      and contributes the sanitised reference as a parent identifier; any
      other record gets `isParent` false and `Level-1`; nothing else in
      the record changes. */
  lemma ClassifySpec(newdoc: Doc)
    requires "related_dataset" in newdoc ==> newdoc["related_dataset"].VStr?
    ensures Classify(newdoc).Skipped? <==>
      "related_dataset" in newdoc && Contains(WithoutNpi(newdoc["related_dataset"].s), "doi.org")
    ensures Classify(newdoc).Admitted? && "related_dataset" in newdoc ==>
      var rd := WithoutNpi(newdoc["related_dataset"].s);
      var d := Classify(newdoc).doc;
      && d["related_dataset"] == VStr(rd) && d["isChild"] == VStr("true") && d["dataset_type"] == VStr("Level-2")
      && Classify(newdoc).parentId == Some(Sanitised(rd))
      && forall i :: 0 <= i < |Sanitised(rd)| ==> !IsIllegal(Sanitised(rd)[i])
    ensures Classify(newdoc).Admitted? && "related_dataset" !in newdoc ==>
      var d := Classify(newdoc).doc;
      d["isParent"] == VStr("false") && d["dataset_type"] == VStr("Level-1") && Classify(newdoc).parentId == None
    ensures Classify(newdoc).Admitted? ==>
      var d := Classify(newdoc).doc;
      && d.Keys == newdoc.Keys + (if "related_dataset" in newdoc then {"isChild", "dataset_type"} else {"isParent", "dataset_type"})
      && forall k :: k in newdoc && k !in ClassKeys ==> d[k] == newdoc[k]
  {
    if "related_dataset" in newdoc {
      SanitisedIsClean(WithoutNpi(newdoc["related_dataset"].s));
    }
  }

  // ---------------------------------------------------------------------
  // Gathering the records of a run

  /** The records to ingest, the parent identifiers children refer to,
      and the thumbnail flag of the last record converted. */
  datatype Gathered = Gathered(files2ingest: seq<Doc>, parentids: set<string>, tflg: bool)

  /** What `tosolr` guarantees of a record it returns, as far as the
      run relies on it. */
  predicate ConvertedShape(newdoc: Doc)
  {
    && "id" in newdoc && newdoc["id"].VStr?
    && "isParent" in newdoc && newdoc["isParent"] == VStr("false")
    && "isChild" in newdoc && newdoc["isChild"] == VStr("false")
    && ("related_dataset" in newdoc ==> newdoc["related_dataset"].VStr?)
  }

  /** A converted record joins the run: the thumbnail flag is taken from
      it, and it is classified. */
  function Admit(g: Gathered, newdoc: Doc, noThumbnail: bool): Gathered
    requires ConvertedShape(newdoc)
  {
    var tflg := !noThumbnail && "data_access_url_ogc_wms" in newdoc;
    match Classify(newdoc)
    case Skipped => Gathered(g.files2ingest, g.parentids, tflg)
    case Admitted(d, pid) =>
      Gathered(g.files2ingest + [d], g.parentids + (if pid.Some? then {pid.value} else {}), tflg)
  }

  /** The record of one listed file: read (the file is parsed into the
      children of its `mmd:mmd` root by `read`), checked and converted;
      nothing when it is not a candidate, cannot be read or raises. */
  function Processed(myfile: string, opts: Options, read: string -> Result<Doc>, fx: Foreign): (r: Option<Doc>)
    ensures r.Some? ==> ConvertedShape(r.value)
  {
    match Candidate(myfile, opts.directory)
    case None => None
    case Some(path) =>
      match read(path)
      case Failure(_) => None
      case Success(root) =>
        match Checked(root, fx)
        case Failure(_) => None
        case Success(mmd) =>
          match Converted(mmd, fx)
          case Failure(_) => None
          case Success(newdoc) =>
            ConvertedSpec(mmd, fx, newdoc);
            Some(newdoc)
  }

  function GatherStep(g: Gathered, myfile: string, opts: Options, read: string -> Result<Doc>, fx: Foreign): Gathered
  {
    match Processed(myfile, opts, read, fx)
    case None => g
    case Some(newdoc) => Admit(g, newdoc, opts.noThumbnail)
  }

  function Gather(myfiles: seq<string>, opts: Options, read: string -> Result<Doc>, fx: Foreign): Gathered
    decreases |myfiles|
  {
    if myfiles == [] then Gathered([], {}, false)
    else GatherStep(Gather(myfiles[..|myfiles| - 1], opts, read, fx), myfiles[|myfiles| - 1], opts, read, fx)
  }

  /** A file that was read is kept exactly when its record passes
      `check_mmd` and every stage of `tosolr`; a kept record had keywords
      whose vocabularies the GCMD check could read. */
  lemma ProcessedNeedsChecks(myfile: string, opts: Options, read: string -> Result<Doc>, fx: Foreign,
                             path: string, root: Doc)
    requires Candidate(myfile, opts.directory) == Some(path) && read(path) == Success(root)
    ensures Processed(myfile, opts, read, fx).Some? <==>
      Checked(root, fx).Success? && Converted(Defaulted(root), fx).Success?
    ensures Processed(myfile, opts, read, fx).Some? ==>
      && "mmd:keywords" in root
      && GcmdCheck(Defaulted(root), fx).None?
      && fx.stages(Defaulted(root)).raised.None?
  {
    CheckedSpec(root, fx);
    if Processed(myfile, opts, read, fx).Some? {
      ConvertedSpec(Defaulted(root), fx, Converted(Defaulted(root), fx).value);
    }
  }

  /** A record without keywords, or whose single keyword element has no
      vocabulary, is dropped. */
  lemma KeywordlessDropped(myfile: string, opts: Options, read: string -> Result<Doc>, fx: Foreign,
                           path: string, root: Doc)
    requires Candidate(myfile, opts.directory) == Some(path) && read(path) == Success(root)
    requires "mmd:keywords" !in root || (root["mmd:keywords"].VMap? && "@vocabulary" !in root["mmd:keywords"].fields)
    ensures Processed(myfile, opts, read, fx) == None
  {
    ProcessedNeedsChecks(myfile, opts, read, fx, path, root);
    if "mmd:keywords" in root {
      assert Defaulted(root)["mmd:keywords"] == root["mmd:keywords"];
      GcmdCheckSpec(Defaulted(root), fx);
    }
  }

  /** After a kept record the thumbnail flag says whether thumbnails are
      wanted and one of the stages of `tosolr` not modelled wrote a WMS
      address. */
  lemma ThumbnailFlagFromStages(g: Gathered, myfile: string, opts: Options, read: string -> Result<Doc>,
                                fx: Foreign, path: string, root: Doc)
    requires Candidate(myfile, opts.directory) == Some(path) && read(path) == Success(root)
    requires Processed(myfile, opts, read, fx).Some?
    ensures GatherStep(g, myfile, opts, read, fx).tflg <==>
      !opts.noThumbnail && "data_access_url_ogc_wms" in fx.stages(Defaulted(root)).fields
  {
    var newdoc := Processed(myfile, opts, read, fx).value;
    ProcessedIsConverted(myfile, opts, read, fx, path, root);
    var mmd := Defaulted(root);
    WmsNotModelled();
    ConvertedKeepsOthers(mmd, fx, newdoc, "data_access_url_ogc_wms");
    AdmitFlag(g, newdoc, opts.noThumbnail);
    GatherStepKept(g, myfile, opts, read, fx);
  }

  /** No modelled stage writes the WMS address; a modelled key never begins with `d`. */
  lemma WmsNotModelled()
    ensures "data_access_url_ogc_wms" !in ModelledKeys
  {
    assert forall k :: k in ModelledKeys ==> |k| > 0 && k[0] != 'd';
  }

  lemma GatherStepKept(g: Gathered, myfile: string, opts: Options, read: string -> Result<Doc>, fx: Foreign)
    requires Processed(myfile, opts, read, fx).Some?
    ensures GatherStep(g, myfile, opts, read, fx) == Admit(g, Processed(myfile, opts, read, fx).value, opts.noThumbnail)
  {
  }

  lemma ProcessedIsConverted(myfile: string, opts: Options, read: string -> Result<Doc>, fx: Foreign,
                             path: string, root: Doc)
    requires Candidate(myfile, opts.directory) == Some(path) && read(path) == Success(root)
    requires Processed(myfile, opts, read, fx).Some?
    ensures Converted(Defaulted(root), fx) == Success(Processed(myfile, opts, read, fx).value)
  {
  }

  lemma AdmitFlag(g: Gathered, newdoc: Doc, noThumbnail: bool)
    requires ConvertedShape(newdoc)
    ensures Admit(g, newdoc, noThumbnail).tflg == (!noThumbnail && "data_access_url_ogc_wms" in newdoc)
  {
  }

  /** A gathered record: identified, not yet flagged as a parent, and a
      `Level-2` child exactly when it refers to a parent. */
  predicate Admissible(rec: Doc)
  {
    && "id" in rec && rec["id"].VStr?
    && "isParent" in rec && rec["isParent"] == VStr("false")
    && "dataset_type" in rec && "isChild" in rec
    && if "related_dataset" in rec then
         rec["related_dataset"].VStr? && rec["isChild"] == VStr("true") && rec["dataset_type"] == VStr("Level-2")
       else
         rec["isChild"] == VStr("false") && rec["dataset_type"] == VStr("Level-1")
  }

  /** The parent identifier a gathered record contributes. */
  function ParentOf(rec: Doc): Option<string>
  {
    if "related_dataset" in rec && rec["related_dataset"].VStr? then Some(Sanitised(rec["related_dataset"].s))
    else None
  }

  /** Some record of `files` refers to the parent `p`. */
  ghost predicate ParentNamed(files: seq<Doc>, p: string)
  {
    exists j :: 0 <= j < |files| && ParentOf(files[j]) == Some(p)
  }

  ghost predicate GatheredWell(g: Gathered)
  {
    && (forall j :: 0 <= j < |g.files2ingest| ==> Admissible(g.files2ingest[j]))
    && forall p :: p in g.parentids <==> ParentNamed(g.files2ingest, p)
  }

  lemma AdmitWell(g: Gathered, newdoc: Doc, noThumbnail: bool)
    requires GatheredWell(g) && ConvertedShape(newdoc)
    ensures GatheredWell(Admit(g, newdoc, noThumbnail))
    ensures |Admit(g, newdoc, noThumbnail).files2ingest| <= |g.files2ingest| + 1
  {
    ClassifySpec(newdoc);
    var tflg := !noThumbnail && "data_access_url_ogc_wms" in newdoc;
    match Classify(newdoc)
    case Skipped =>
    case Admitted(d, pid) =>
      assert Admissible(d);
      assert ParentOf(d) == pid;
      AppendWell(g, d, pid, tflg);
  }

  /** Appending an admissible record and the parent identifier it
      contributes keeps the gathered state well formed. */
  lemma AppendWell(g: Gathered, d: Doc, pid: Option<string>, tflg: bool)
    requires GatheredWell(g) && Admissible(d) && ParentOf(d) == pid
    ensures GatheredWell(Gathered(g.files2ingest + [d], g.parentids + (if pid.Some? then {pid.value} else {}), tflg))
  {
    AppendAdmissible(g.files2ingest, d);
    forall p
      ensures ParentNamed(g.files2ingest + [d], p) <==> ParentNamed(g.files2ingest, p) || pid == Some(p)
    {
      ParentNamedAppend(g.files2ingest, d, p);
    }
  }

  lemma ParentNamedAppend(files: seq<Doc>, d: Doc, p: string)
    ensures ParentNamed(files + [d], p) <==> ParentNamed(files, p) || ParentOf(d) == Some(p)
  {
    var n := |files|;
    if ParentNamed(files, p) {
      var j :| 0 <= j < n && ParentOf(files[j]) == Some(p);
      assert (files + [d])[j] == files[j];
    }
    if ParentOf(d) == Some(p) {
      assert (files + [d])[n] == d;
    }
    if ParentNamed(files + [d], p) {
      var j :| 0 <= j < n + 1 && ParentOf((files + [d])[j]) == Some(p);
      if j < n {
        assert (files + [d])[j] == files[j];
      }
    }
  }

  lemma AppendAdmissible(files: seq<Doc>, d: Doc)
    requires forall j :: 0 <= j < |files| ==> Admissible(files[j])
    requires Admissible(d)
    ensures forall j :: 0 <= j < |files + [d]| ==> Admissible((files + [d])[j])
  {
    forall j | 0 <= j < |files + [d]|
      ensures Admissible((files + [d])[j])
    {
      if j < |files| {
        assert (files + [d])[j] == files[j];
      }
    }
  }

  /** Every gathered record is admissible, at most one record is gathered
      per listed file, and the parent identifiers are exactly those the
      gathered children refer to. */
  lemma {:induction false} GatherWell(myfiles: seq<string>, opts: Options, read: string -> Result<Doc>, fx: Foreign)
    ensures GatheredWell(Gather(myfiles, opts, read, fx))
    ensures |Gather(myfiles, opts, read, fx).files2ingest| <= |myfiles|
    decreases |myfiles|
  {
    if myfiles != [] {
      var pre := myfiles[..|myfiles| - 1];
      GatherWell(pre, opts, read, fx);
      var g := Gather(pre, opts, read, fx);
      var last := Processed(myfiles[|myfiles| - 1], opts, read, fx);
      if last.Some? {
        AdmitWell(g, last.value, opts.noThumbnail);
      }
    }
  }

  // ---------------------------------------------------------------------
  // Flagging parents found in the same run

  /** The records the flagging loop may look at: they are identified and
      classified. */
  predicate Ingestible(rec: Doc)
  {
    "id" in rec && "dataset_type" in rec
  }

  predicate AllIngestible(files: seq<Doc>)
  {
    forall j :: 0 <= j < |files| ==> Ingestible(files[j])
  }

  /** A record already flagged as a `Level-1` parent. */
  predicate AlreadyParent(rec: Doc)
    requires Ingestible(rec)
  {
    "isParent" in rec && rec["isParent"] == VStr("true") && rec["dataset_type"] == VStr("Level-1")
  }

  /** The fields set on a record whose identifier is a parent identifier. */
  function FlagUpdate(rec: Doc): Doc
    requires Ingestible(rec)
  {
    if "isParent" in rec then
      if rec["isParent"] == VStr("true") then
        if rec["dataset_type"] == VStr("Level-1") then map[] else map["dataset_type" := VStr("Level-1")]
      else map["isParent" := VStr("true")]
    else map["isParent" := VStr("true"), "dataset_type" := VStr("Level-1")]
  }

  function Flag(rec: Doc): Doc
    requires Ingestible(rec)
  {
    rec + FlagUpdate(rec)
  }

  /** Flagging marks the record a parent, keeps its identifier and every
      other field but the dataset type, and the dataset type only becomes
      `Level-1` when the record had no flag or was flagged already. */
  lemma FlagSpec(rec: Doc)
    requires Ingestible(rec)
    ensures Ingestible(Flag(rec)) && Flag(rec).Keys == rec.Keys + {"isParent"}
    ensures Flag(rec)["isParent"] == VStr("true")
    ensures forall k :: k in rec && k != "isParent" && k != "dataset_type" ==> Flag(rec)[k] == rec[k]
    ensures "isParent" in rec && rec["isParent"] != VStr("true") ==> Flag(rec)["dataset_type"] == rec["dataset_type"]
    ensures !("isParent" in rec && rec["isParent"] != VStr("true")) ==> Flag(rec)["dataset_type"] == VStr("Level-1")
  {
  }

  /** Whether a record's identifier is among the parent identifiers. */
  predicate NamedIn(rec: Doc, parentids: set<string>)
    requires Ingestible(rec)
  {
    rec["id"].VStr? && rec["id"].s in parentids
  }

  function Marked(rec: Doc, parentids: set<string>): Doc
    requires Ingestible(rec)
  {
    if NamedIn(rec, parentids) then Flag(rec) else rec
  }

  /** The records once every record whose identifier some child refers to
      has been flagged as a parent. */
  function Reconciled(files: seq<Doc>, parentids: set<string>): seq<Doc>
    requires AllIngestible(files)
  {
    seq(|files|, j requires 0 <= j < |files| => Marked(files[j], parentids))
  }

  /** Flagging keeps every record in its place; the records some child
      refers to are parents afterwards and no other record changes; a
      record gathered in this run keeps its dataset type. */
  lemma ReconciledSpec(files: seq<Doc>, parentids: set<string>)
    requires AllIngestible(files)
    ensures |Reconciled(files, parentids)| == |files|
    ensures AllIngestible(Reconciled(files, parentids))
    ensures forall j :: 0 <= j < |files| ==> Reconciled(files, parentids)[j]["id"] == files[j]["id"]
    ensures forall j :: 0 <= j < |files| && NamedIn(files[j], parentids) ==>
      "isParent" in Reconciled(files, parentids)[j] && Reconciled(files, parentids)[j]["isParent"] == VStr("true")
    ensures forall j :: 0 <= j < |files| && !NamedIn(files[j], parentids) ==> Reconciled(files, parentids)[j] == files[j]
    ensures forall j :: 0 <= j < |files| && Admissible(files[j]) && NamedIn(files[j], parentids) ==>
      Reconciled(files, parentids)[j] == files[j]["isParent" := VStr("true")]
  {
    forall j | 0 <= j < |files|
      ensures Ingestible(Reconciled(files, parentids)[j])
      ensures Reconciled(files, parentids)[j]["id"] == files[j]["id"]
    {
      FlagSpec(files[j]);
    }
  }

  /** A parent identifier no record carries changes nothing. */
  lemma ReconciledAbsent(files: seq<Doc>, parentids: set<string>, p: string)
    requires AllIngestible(files)
    requires forall j :: 0 <= j < |files| ==> files[j]["id"] != VStr(p)
    ensures Reconciled(files, parentids + {p}) == Reconciled(files, parentids)
  {
  }

  /** The records after a pass that flags, from `cur` on, the records
      named `id`. */
  function PassedFrom(state: seq<Doc>, id: string, cur: nat): (r: seq<Doc>)
    requires AllIngestible(state)
    ensures |r| == |state|
  {
    seq(|state|, j requires 0 <= j < |state| =>
      if cur <= j && state[j]["id"] == VStr(id) then Flag(state[j]) else state[j])
  }

  /** A pass for an identifier not flagged yet flags one more. */
  lemma PassMarks(files: seq<Doc>, state: seq<Doc>, done: set<string>, id: string)
    requires AllIngestible(files) && AllIngestible(state) && |state| == |files|
    requires forall j :: 0 <= j < |files| ==> state[j] == Marked(files[j], done)
    requires id !in done
    ensures forall j :: 0 <= j < |files| ==> PassedFrom(state, id, 0)[j] == Marked(files[j], done + {id})
  {
    forall j | 0 <= j < |files|
      ensures PassedFrom(state, id, 0)[j] == Marked(files[j], done + {id})
    {
      FlagSpec(files[j]);
    }
  }

  /** The loop over the records for one parent identifier. */
  method FlagPass(state: seq<Doc>, id: string) returns (r: seq<Doc>)
    requires AllIngestible(state)
    ensures r == PassedFrom(state, id, 0)
  {
    r := state;
    var i := 0;
    while i < |r|
      invariant 0 <= i <= |r| == |state|
      invariant forall j :: 0 <= j < i ==> r[j] == PassedFrom(state, id, 0)[j]
      invariant forall j :: i <= j < |r| ==> r[j] == state[j]
    {
      var rec := r[i];
      if rec["id"] == VStr(id) {
        if "isParent" in rec {
          if rec["isParent"] == VStr("true") {
            if rec["dataset_type"] == VStr("Level-1") {
              assert rec == Flag(rec);
            } else {
              r := r[i := rec["dataset_type" := VStr("Level-1")]];
            }
          } else {
            r := r[i := rec["isParent" := VStr("true")]];
          }
        } else {
          r := r[i := rec["isParent" := VStr("true")]["dataset_type" := VStr("Level-1")]];
        }
      }
      i := i + 1;
    }
  }

  /** The flagging loops: for each parent identifier found among the
      records, each record it names is flagged. */
  method Reconcile(files: seq<Doc>, parentids: set<string>) returns (r: seq<Doc>)
    requires AllIngestible(files)
    ensures r == Reconciled(files, parentids)
  {
    r := files;
    var pending := parentids;
    ghost var done: set<string> := {};
    while pending != {}
      invariant pending + done == parentids && pending !! done
      invariant |r| == |files| && AllIngestible(r)
      invariant forall j :: 0 <= j < |r| ==> r[j] == Marked(files[j], done)
      decreases |pending|
    {
      var id :| id in pending;
      PassMarks(files, r, done, id);
      pending := pending - {id};
      done := done + {id};
      if !(exists j | 0 <= j < |r| :: r[j]["id"] == VStr(id)) {
        assert PassedFrom(r, id, 0) == r;
        continue;
      }
      r := FlagPass(r, id);
      forall j | 0 <= j < |r|
        ensures Ingestible(r[j])
      {
        FlagSpec(files[j]);
      }
    }
  }

  // ---------------------------------------------------------------------
  // The flagging loop as written

  /** One pass of the flagging loop for identifier `id` as written: the
      records are visited in order, `cur` is the record visited and `i` the
      index the updates are written to.  A record that is already a
      `Level-1` parent is passed over with `continue`, which also skips the
      `i += 1` at the end of the loop body, so every later update lands on
      the record before the one visited. */
  function AsWrittenPass(state: seq<Doc>, id: string, cur: nat, i: nat): (r: seq<Doc>)
    requires i <= cur <= |state|
    requires AllIngestible(state)
    ensures |r| == |state| && AllIngestible(r)
    decreases |state| - cur
  {
    if cur == |state| then state
    else
      var rec := state[cur];
      if rec["id"] == VStr(id) then
        if AlreadyParent(rec) then AsWrittenPass(state, id, cur + 1, i)
        else
          var upd := state[i] + FlagUpdate(rec);
          assert Ingestible(upd);
          AsWrittenPass(state[i := upd], id, cur + 1, i + 1)
      else AsWrittenPass(state, id, cur + 1, i + 1)
  }

  /** The flagging loops as written, the parent identifiers taken in the
      order the set is iterated. */
  function ReconciledAsWritten(files: seq<Doc>, order: seq<string>): (r: seq<Doc>)
    requires AllIngestible(files)
    ensures |r| == |files| && AllIngestible(r)
    decreases |order|
  {
    if order == [] then files
    else
      var prev := ReconciledAsWritten(files, order[..|order| - 1]);
      var id := order[|order| - 1];
      if !(exists j | 0 <= j < |prev| :: prev[j]["id"] == VStr(id)) then prev
      else AsWrittenPass(prev, id, 0, 0)
  }

  /** Two records with the same identifier, the first already a `Level-1`
      parent: as written the second is never flagged, although a child
      refers to it. */
  lemma AsWrittenSkipsFlag()
    ensures var a := map["id" := VStr("a"), "isParent" := VStr("true"), "dataset_type" := VStr("Level-1")];
      var b := map["id" := VStr("a"), "isParent" := VStr("false"), "dataset_type" := VStr("Level-2")];
      && ReconciledAsWritten([a, b], ["a"]) == [a, b]
      && Reconciled([a, b], {"a"}) == [a, b["isParent" := VStr("true")]]
  {
    var a := map["id" := VStr("a"), "isParent" := VStr("true"), "dataset_type" := VStr("Level-1")];
    var b := map["id" := VStr("a"), "isParent" := VStr("false"), "dataset_type" := VStr("Level-2")];
    var files := [a, b];
    assert ["a"][..0] == [];
    assert files[0]["id"] == VStr("a");
    assert AlreadyParent(a);
    assert AsWrittenPass(files, "a", 0, 0) == AsWrittenPass(files, "a", 1, 0);
    assert FlagUpdate(b) == map["isParent" := VStr("true")];
    assert a + FlagUpdate(b) == a;
    assert files[0 := a] == files;
    assert AsWrittenPass(files, "a", 1, 0) == AsWrittenPass(files, "a", 2, 1);
    assert Flag(a) == a;
    assert Flag(b) == b["isParent" := VStr("true")];
  }

  /** When no record named `id` is already a parent, the pass as written
      keeps its counter in step and flags each record named `id`. */
  lemma {:induction false} AsWrittenPassAgrees(state: seq<Doc>, id: string, cur: nat)
    requires cur <= |state| && AllIngestible(state)
    requires forall j :: cur <= j < |state| && state[j]["id"] == VStr(id) ==> !AlreadyParent(state[j])
    ensures AsWrittenPass(state, id, cur, cur) == PassedFrom(state, id, cur)
    decreases |state| - cur
  {
    if cur < |state| {
      var rec := state[cur];
      var next := if rec["id"] == VStr(id) then state[cur := state[cur] + FlagUpdate(rec)] else state;
      FlagSpec(rec);
      assert AllIngestible(next);
      AsWrittenPassAgrees(next, id, cur + 1);
      assert PassedFrom(next, id, cur + 1) == PassedFrom(state, id, cur);
    } else {
      assert PassedFrom(state, id, cur) == state;
    }
  }

  predicate Distinct(order: seq<string>)
  {
    forall a, b :: 0 <= a < b < |order| ==> order[a] != order[b]
  }

  /** On the records a run gathers, none of which is a parent yet, the
      loops as written and the corrected ones agree, whatever order the
      parent identifiers are taken in. */
  lemma {:induction false} AsWrittenAgrees(files: seq<Doc>, order: seq<string>)
    requires AllIngestible(files) && Distinct(order)
    requires forall j :: 0 <= j < |files| ==> !AlreadyParent(files[j])
    ensures ReconciledAsWritten(files, order) == Reconciled(files, set x | x in order)
    decreases |order|
  {
    if order == [] {
      assert Reconciled(files, {}) == files;
    } else {
      var n := |order|;
      var pre := order[..n - 1];
      var id := order[n - 1];
      var before := set x | x in pre;
      var after := set x | x in order;
      assert after == before + {id};
      assert id !in before;
      AsWrittenAgrees(files, pre);
      AsWrittenStep(files, before, id);
    }
  }

  /** One more parent identifier, taken by the loop as written, flags
      what the corrected loops flag for it. */
  lemma AsWrittenStep(files: seq<Doc>, before: set<string>, id: string)
    requires AllIngestible(files) && id !in before
    requires forall j :: 0 <= j < |files| ==> !AlreadyParent(files[j])
    ensures var prev := Reconciled(files, before);
      (if !(exists j | 0 <= j < |prev| :: prev[j]["id"] == VStr(id)) then prev
       else AsWrittenPass(prev, id, 0, 0)) == Reconciled(files, before + {id})
  {
    var prev := Reconciled(files, before);
    ReconciledSpec(files, before);
    forall j | 0 <= j < |files|
      ensures prev[j]["id"] == VStr(id) ==> prev[j] == files[j]
    {
      FlagSpec(files[j]);
    }
    PassMarks(files, prev, before, id);
    if !(exists j | 0 <= j < |prev| :: prev[j]["id"] == VStr(id)) {
      assert PassedFrom(prev, id, 0) == prev;
    } else {
      AsWrittenPassAgrees(prev, id, 0);
    }
    assert PassedFrom(prev, id, 0) == Reconciled(files, before + {id});
  }

  /** On what a run gathers, the loops as written flag exactly what the
      corrected loops flag. */
  lemma GatheredAgrees(myfiles: seq<string>, opts: Options, read: string -> Result<Doc>, fx: Foreign, order: seq<string>)
    requires Distinct(order)
    requires (set x | x in order) == Gather(myfiles, opts, read, fx).parentids
    ensures var g := Gather(myfiles, opts, read, fx);
      AllIngestible(g.files2ingest) &&
      ReconciledAsWritten(g.files2ingest, order) == Reconciled(g.files2ingest, g.parentids)
  {
    var g := Gather(myfiles, opts, read, fx);
    GatherWell(myfiles, opts, read, fx);
    AsWrittenAgrees(g.files2ingest, order);
  }

  // ---------------------------------------------------------------------
  // Batches

  const BatchSize := 2500

  /** The records in batches of 2500, the last one possibly shorter. */
  function Chunks(s: seq<Doc>): seq<seq<Doc>>
    decreases |s|
  {
    if s == [] then []
    else if |s| <= BatchSize then [s]
    else [s[..BatchSize]] + Chunks(s[BatchSize..])
  }

  function Flatten(bs: seq<seq<Doc>>): seq<Doc>
    decreases |bs|
  {
    if bs == [] then [] else bs[0] + Flatten(bs[1..])
  }

  /** The batches hold every record once, in order; each holds between one
      and 2500 records and every batch but the last is full. */
  lemma {:induction false} ChunksSpec(s: seq<Doc>)
    ensures Flatten(Chunks(s)) == s
    ensures forall k :: 0 <= k < |Chunks(s)| ==> 0 < |Chunks(s)[k]| <= BatchSize
    ensures forall k :: 0 <= k < |Chunks(s)| - 1 ==> |Chunks(s)[k]| == BatchSize
    ensures |Chunks(s)| == (|s| + BatchSize - 1) / BatchSize
    decreases |s|
  {
    if |s| > BatchSize {
      var rest := s[BatchSize..];
      ChunksSpec(rest);
      var c := Chunks(s);
      assert c[1..] == Chunks(rest);
      assert s[..BatchSize] + rest == s;
      forall k | 0 <= k < |c|
        ensures 0 < |c[k]| <= BatchSize
        ensures k < |c| - 1 ==> |c[k]| == BatchSize
      {
        if k > 0 {
          assert c[k] == Chunks(rest)[k - 1];
        }
      }
    } else if s != [] {
      assert Chunks(s)[1..] == [];
    }
  }

  lemma ChunksFrom(s: seq<Doc>, i: nat)
    requires i < |s|
    ensures var j := if i + BatchSize < |s| then i + BatchSize else |s|;
      Chunks(s[i..]) == [s[i..j]] + Chunks(s[j..])
  {
    var j := if i + BatchSize < |s| then i + BatchSize else |s|;
    if i + BatchSize < |s| {
      assert s[i..][..BatchSize] == s[i..j];
      assert s[i..][BatchSize..] == s[j..];
    } else {
      assert s[i..] == s[i..j];
      assert s[j..] == [];
    }
  }

  /** The batching loop, counting the records sent. */
  method Batches(files2ingest: seq<Doc>) returns (batches: seq<seq<Doc>>, myrecs: nat)
    ensures batches == Chunks(files2ingest)
    ensures myrecs == |files2ingest|
  {
    batches := [];
    myrecs := 0;
    var i := 0;
    while i < |files2ingest|
      invariant myrecs == (if i < |files2ingest| then i else |files2ingest|)
      invariant batches + Chunks(files2ingest[myrecs..]) == Chunks(files2ingest)
      decreases |files2ingest| - i
    {
      var j := if i + BatchSize < |files2ingest| then i + BatchSize else |files2ingest|;
      var mylist := files2ingest[i..j];
      ChunksFrom(files2ingest, i);
      myrecs := myrecs + |mylist|;
      batches := batches + [mylist];
      i := i + BatchSize;
    }
    assert files2ingest[myrecs..] == [];
  }

  // ---------------------------------------------------------------------
  // The run

  /** Reading, checking and converting one listed file. */
  method ProcessFile(myfile: string, opts: Options, read: string -> Result<Doc>, fx: Foreign)
    returns (r: Option<Doc>)
    ensures r == Processed(myfile, opts, read, fx)
  {
    var f := Strip(myfile);
    if !EndsWith(f, ".xml") {
      return None;
    }
    if opts.directory != [] {
      f := Join(opts.directory, f);
    }
    var parsed := read(f);
    if parsed.Failure? {
      return None;
    }
    var mydoc := new MMD4SolR(parsed.value);
    var raised := mydoc.CheckMmd(fx);
    if raised.Some? {
      return None;
    }
    var converted := mydoc.ToSolr(fx);
    if converted.Failure? {
      return None;
    }
    return Some(converted.value);
  }

  /** The thumbnail flag and the parent/child classification of one
      converted record. */
  method AdmitRecord(g: Gathered, newdoc: Doc, noThumbnail: bool)
    returns (files2ingest: seq<Doc>, parentids: set<string>, tflg: bool)
    requires ConvertedShape(newdoc)
    ensures Gathered(files2ingest, parentids, tflg) == Admit(g, newdoc, noThumbnail)
  {
    files2ingest, parentids := g.files2ingest, g.parentids;
    var doc := newdoc;
    tflg := !noThumbnail && "data_access_url_ogc_wms" in doc;
    if "related_dataset" in doc {
      var rd := WithoutNpi(doc["related_dataset"].s);
      doc := doc["related_dataset" := VStr(rd)];
      if Contains(rd, "doi.org") {
        return;
      }
      var myparentid := SanitiseId(rd);
      doc := doc["isChild" := VStr("true")]["dataset_type" := VStr("Level-2")];
      parentids := parentids + {myparentid};
    } else {
      doc := doc["isParent" := VStr("false")]["dataset_type" := VStr("Level-1")];
    }
    files2ingest := files2ingest + [doc];
  }

  /** The run over the listed files: the batches handed to SolR (none when
      no record was gathered) and the thumbnail flag they are sent with.
      The flagging loop takes the parent identifiers one at a time. */
  method IndexFiles(myfiles: seq<string>, opts: Options, read: string -> Result<Doc>, fx: Foreign)
    returns (batches: seq<seq<Doc>>, tflg: bool)
    ensures var g := Gather(myfiles, opts, read, fx);
      && AllIngestible(g.files2ingest)
      && tflg == g.tflg
      && batches == Chunks(Reconciled(g.files2ingest, g.parentids))
  {
    var files2ingest: seq<Doc> := [];
    var parentids: set<string> := {};
    tflg := false;
    for k := 0 to |myfiles|
      invariant Gathered(files2ingest, parentids, tflg) == Gather(myfiles[..k], opts, read, fx)
    {
      assert myfiles[..k + 1][..k] == myfiles[..k];
      var newdoc := ProcessFile(myfiles[k], opts, read, fx);
      if newdoc.Some? {
        files2ingest, parentids, tflg := AdmitRecord(Gathered(files2ingest, parentids, tflg), newdoc.value, opts.noThumbnail);
      }
    }
    assert myfiles[..|myfiles|] == myfiles;
    GatherWell(myfiles, opts, read, fx);
    assert AllIngestible(files2ingest);
    files2ingest := Reconcile(files2ingest, parentids);
    if |files2ingest| == 0 {
      return [], tflg;
    }
    var myrecs;
    batches, myrecs := Batches(files2ingest);
  }
}
