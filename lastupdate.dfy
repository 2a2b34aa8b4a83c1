/** The `last_metadata_update` stage of `tosolr`: the `mmd:update`
    children of the element are spread over three parallel lists
    (datetime, type, note), and every datetime is made to end in `Z`, the
    UTC designator SolR requires. */
module LastUpdate {
  import opened Documents
  import opened Strings

  /** One `mmd:update` element. */
  datatype Update = Update(datetime: string, kind: Value, note: Value)

  /** An element of a repeated `mmd:update`: the note may be missing. */
  function UpdateEntry(e: Value, fx: Foreign): Result<seq<Update>>
  {
    var dt :- Get(e, "mmd:datetime");
    var kind :- Get(e, "mmd:type");
    var note := if e.VMap? && "mmd:note" in e.fields then e.fields["mmd:note"] else VStr("Not provided");
    Success([Update(Str(dt, fx), kind, note)])
  }

  function UpdateEntries(fx: Foreign): Value -> Result<seq<Update>>
  {
    e => UpdateEntry(e, fx)
  }

  /** The updates of a `mmd:last_metadata_update` element.  A single
      update must carry its note; a repeated one may leave it out.  An
      empty text iterates over nothing; any other text, or a value that is
      not a list, raises. */
  function Updates(lmu: Value, fx: Foreign): Result<seq<Update>>
  {
    var update :- Get(lmu, "mmd:update");
    match update
    case VMap(m) =>
      var dt :- Lookup(m, "mmd:datetime");
      var kind :- Lookup(m, "mmd:type");
      var note :- Lookup(m, "mmd:note");
      Success([Update(Str(dt, fx), kind, note)])
    case VList(items) => Collect(items, UpdateEntries(fx))
    case VStr(s) => if s == "" then Success([]) else Failure(TypeError("string indices must be integers"))
    case _ => Failure(TypeError("object is not iterable"))
  }

  /** A datetime as SolR receives it. */
  function WithZ(s: string): string
  {
    if EndsWith(s, "Z") then s else s + "Z"
  }

  function WithZs(xs: seq<string>): seq<string>
  {
    seq(|xs|, j requires 0 <= j < |xs| => WithZ(xs[j]))
  }

  /** Every datetime ends in `Z` afterwards; one that already did is kept,
      any other gets exactly one `Z` appended; so doing it twice changes
      nothing more. */
  lemma WithZsSpec(xs: seq<string>)
    ensures |WithZs(xs)| == |xs|
    ensures forall j :: 0 <= j < |xs| ==> EndsWith(WithZs(xs)[j], "Z")
    ensures forall j :: 0 <= j < |xs| ==>
      WithZs(xs)[j] == if EndsWith(xs[j], "Z") then xs[j] else xs[j] + "Z"
    ensures WithZs(WithZs(xs)) == WithZs(xs)
  {
    forall j | 0 <= j < |xs|
      ensures EndsWith(WithZs(xs)[j], "Z")
    {
      var s := xs[j];
      if !EndsWith(s, "Z") {
        assert (s + "Z")[|s + "Z"| - 1..] == "Z";
      }
    }
  }

  /** The loop with the running counter `i` that rewrites
      `lmu_datetime[i-1]` in place. */
  method AppendZ(lmu: seq<string>) returns (r: seq<string>)
    ensures r == WithZs(lmu)
  {
    r := lmu;
    var i := 0;
    while i < |r|
      invariant |r| == |lmu| && 0 <= i <= |r|
      invariant forall j :: 0 <= j < i ==> r[j] == WithZ(lmu[j])
      invariant r[i..] == lmu[i..]
    {
      var myel := r[i];
      i := i + 1;
      if EndsWith(myel, "Z") {
        continue;
      } else {
        r := r[i - 1 := myel + "Z"];
      }
    }
  }

  function Texts(xs: seq<string>): seq<Value>
  {
    seq(|xs|, j requires 0 <= j < |xs| => VStr(xs[j]))
  }

  function Datetimes(us: seq<Update>): seq<string>
  {
    seq(|us|, j requires 0 <= j < |us| => us[j].datetime)
  }

  function Kinds(us: seq<Update>): seq<Value>
  {
    seq(|us|, j requires 0 <= j < |us| => us[j].kind)
  }

  function Notes(us: seq<Update>): seq<Value>
  {
    seq(|us|, j requires 0 <= j < |us| => us[j].note)
  }

  /** The three parallel lists written for a set of updates. */
  function UpdateFields(us: seq<Update>): Doc
  {
    map["last_metadata_update_datetime" := VList(Texts(WithZs(Datetimes(us)))),
        "last_metadata_update_type" := VList(Kinds(us)),
        "last_metadata_update_note" := VList(Notes(us))]
  }

  /** The stage: nothing when the element is absent. */
  function LastUpdateStep(mmd: Doc, fx: Foreign): Step
  {
    if "mmd:last_metadata_update" !in mmd then Step(map[], None)
    else
      match Updates(mmd["mmd:last_metadata_update"], fx)
      case Failure(err) => Step(map[], Some(err))
      case Success(us) => Step(UpdateFields(us), None)
  }

  /** The lists are parallel: entry j of each comes from update j, and
      every datetime written ends in `Z`. */
  lemma UpdateFieldsParallel(us: seq<Update>)
    ensures var f := UpdateFields(us);
      && |f["last_metadata_update_datetime"].items| == |us|
      && |f["last_metadata_update_type"].items| == |us|
      && |f["last_metadata_update_note"].items| == |us|
      && forall j :: 0 <= j < |us| ==>
           && f["last_metadata_update_datetime"].items[j] == VStr(WithZ(us[j].datetime))
           && f["last_metadata_update_type"].items[j] == us[j].kind
           && f["last_metadata_update_note"].items[j] == us[j].note
           && EndsWith(WithZ(us[j].datetime), "Z")
  {
    WithZsSpec(Datetimes(us));
  }

  /** A repeated update without a note is recorded as `Not provided`. */
  lemma MissingNoteNotProvided(items: seq<Value>, fx: Foreign, us: seq<Update>, j: nat)
    requires Collect(items, UpdateEntries(fx)) == Success(us)
    requires j < |items| && items[j].VMap? && "mmd:note" !in items[j].fields
    ensures |us| == |items| && us[j].note == VStr("Not provided")
  {
    EntriesOneEach(items, fx, us);
    var e := items[j];
    assert UpdateEntry(e, fx) == Success([us[j]]);
  }

  /** Each element of a repeated update gives exactly one update. */
  lemma {:induction false} EntriesOneEach(items: seq<Value>, fx: Foreign, us: seq<Update>)
    requires Collect(items, UpdateEntries(fx)) == Success(us)
    ensures |us| == |items|
    ensures forall j :: 0 <= j < |items| ==> UpdateEntry(items[j], fx) == Success([us[j]])
    decreases |items|
  {
    if items != [] {
      var pre := items[..|items| - 1];
      var f := UpdateEntries(fx);
      assert f(items[|items| - 1]) == UpdateEntry(items[|items| - 1], fx);
      var prev := Collect(pre, f).value;
      var last := UpdateEntry(items[|items| - 1], fx).value;
      assert us == prev + last;
      EntriesOneEach(pre, fx, prev);
      forall j | 0 <= j < |items|
        ensures UpdateEntry(items[j], fx) == Success([us[j]])
      {
        if j < |pre| {
          assert items[j] == pre[j] && us[j] == prev[j];
        }
      }
    }
  }

  /** The stage as `tosolr` runs it: the `enumerate` loop filling the three
      lists, then the loop appending `Z`. */
  method LastMetadataUpdate(mmd: Doc, fx: Foreign) returns (st: Step)
    ensures st == LastUpdateStep(mmd, fx)
  {
    if "mmd:last_metadata_update" !in mmd {
      return Step(map[], None);
    }
    var update := Get(mmd["mmd:last_metadata_update"], "mmd:update");
    if update.Failure? {
      return Step(map[], Some(update.error));
    }
    if !update.value.VList? {
      match Updates(mmd["mmd:last_metadata_update"], fx) {
        case Failure(err) => st := Step(map[], Some(err));
        case Success(us) => st := Step(UpdateFields(us), None);
      }
      return;
    }
    var items := update.value.items;
    var lmuDatetime: seq<string> := [];
    var lmuType: seq<Value> := [];
    var lmuNote: seq<Value> := [];
    ghost var us: seq<Update> := [];
    for k := 0 to |items|
      invariant Collect(items[..k], UpdateEntries(fx)) == Success(us)
      invariant lmuDatetime == Datetimes(us) && lmuType == Kinds(us) && lmuNote == Notes(us)
    {
      var e := items[k];
      var entry := UpdateEntry(e, fx);
      if entry.Failure? {
        CollectStop(items, UpdateEntries(fx), k, us);
        return Step(map[], Some(entry.error));
      }
      CollectStep(items, UpdateEntries(fx), k, us, entry.value);
      var u := entry.value[0];
      lmuDatetime := lmuDatetime + [u.datetime];
      lmuType := lmuType + [u.kind];
      lmuNote := lmuNote + [u.note];
      us := us + [u];
    }
    assert items[..|items|] == items;
    lmuDatetime := AppendZ(lmuDatetime);
    st := Step(map["last_metadata_update_datetime" := VList(Texts(lmuDatetime)),
                   "last_metadata_update_type" := VList(lmuType),
                   "last_metadata_update_note" := VList(lmuNote)], None);
  }
}
