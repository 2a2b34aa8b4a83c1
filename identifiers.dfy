/** Turning an MMD identifier into a SolR document id.  SolR cannot use
    `:`, `/` or `.` in the id field, so `tosolr` (and `main`, for parent
    references) replace each of them by `-` with `str.replace`, one
    character after the other. */
module Identifiers {
  import opened Strings

  /** The characters replaced, in the order the source replaces them. */
  const IdReplacements: seq<string> := [":", "/", "."]

  predicate IsIllegal(c: char)
  {
    c == ':' || c == '/' || c == '.'
  }

  /** `s` after `s.replace(e, '-')` for each `e` of `reps` in turn. */
  function ReplacedBy(s: string, reps: seq<string>): string
    requires forall i :: 0 <= i < |reps| ==> reps[i] != []
    decreases |reps|
  {
    if reps == [] then s
    else ReplaceAll(ReplacedBy(s, reps[..|reps| - 1]), reps[|reps| - 1], "-")
  }

  /** The id SolR stores for the identifier `s`. */
  function Sanitised(s: string): string
  {
    ReplacedBy(s, IdReplacements)
  }

  /** Each illegal character becomes `-`, every other character stays,
      and the length is kept. */
  lemma SanitisedChars(s: string)
    ensures |Sanitised(s)| == |s|
    ensures forall i :: 0 <= i < |s| ==>
      Sanitised(s)[i] == if IsIllegal(s[i]) then '-' else s[i]
  {
    var reps := IdReplacements;
    assert reps[..0] == [] && reps[..1][..0] == [] && reps[..2][..1] == reps[..1];
    assert reps[..3] == reps;
    var a := ReplaceAll(s, ":", "-");
    assert ReplacedBy(s, reps[..1]) == a;
    ReplaceChar(s, ':', '-');
    var b := ReplaceAll(a, "/", "-");
    assert ReplacedBy(s, reps[..2]) == b;
    ReplaceChar(a, '/', '-');
    ReplaceChar(b, '.', '-');
  }

  /** A sanitised id contains none of the characters SolR rejects. */
  lemma SanitisedIsClean(s: string)
    ensures forall i :: 0 <= i < |Sanitised(s)| ==> !IsIllegal(Sanitised(s)[i])
  {
    SanitisedChars(s);
  }

  /** An identifier that is already clean is its own id, so sanitising is
      idempotent. */
  lemma SanitisedKeepsClean(s: string)
    requires forall i :: 0 <= i < |s| ==> !IsIllegal(s[i])
    ensures Sanitised(s) == s
  {
    SanitisedChars(s);
  }

  lemma SanitisedIdempotent(s: string)
    ensures Sanitised(Sanitised(s)) == Sanitised(s)
  {
    SanitisedIsClean(s);
    SanitisedKeepsClean(Sanitised(s));
  }

  /** The loop `for e in idrepls: myid = myid.replace(e, '-')`. */
  method SanitiseId(s: string) returns (myid: string)
    ensures myid == Sanitised(s)
    ensures |myid| == |s|
    ensures forall i :: 0 <= i < |s| ==> myid[i] == if IsIllegal(s[i]) then '-' else s[i]
  {
    myid := s;
    for k := 0 to |IdReplacements|
      invariant myid == ReplacedBy(s, IdReplacements[..k])
    {
      assert IdReplacements[..k + 1][..k] == IdReplacements[..k];
      myid := ReplaceAll(myid, IdReplacements[k], "-");
    }
    assert IdReplacements[..|IdReplacements|] == IdReplacements;
    SanitisedChars(s);
  }
}
