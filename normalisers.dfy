/** Two small repairs `tosolr` makes to harvested metadata: completing a
    dataset citation's `publication_date` into the full UTC datetime SolR
    requires, and deriving `platform_sentinel` (the Sentinel satellite
    family, for the Norwegian ground segment) from the first platform. */
module Normalisers {
  import opened Documents
  import opened Strings

  // ---------------------------------------------------------------------
  // Regular expressions made of digits and literal characters

  datatype CharClass = Digit | Lit(c: char)

  /** `\d`, on ASCII digits. */
  predicate IsDigit(c: char)
  {
    '0' <= c <= '9'
  }

  predicate Fits(k: CharClass, c: char)
  {
    match k
    case Digit => IsDigit(c)
    case Lit(d) => c == d
  }

  /** The pattern matches the whole of `w`. */
  predicate Window(w: string, pat: seq<CharClass>)
  {
    |w| == |pat| && forall k :: 0 <= k < |pat| ==> Fits(pat[k], w[k])
  }

  /** The pattern matches `s` at position `i`. */
  predicate MatchAt(s: string, i: int, pat: seq<CharClass>)
  {
    0 <= i && i + |pat| <= |s| && Window(s[i..i + |pat|], pat)
  }

  /** `re.search(pat, s)` finds a match. */
  predicate Occurs(s: string, pat: seq<CharClass>)
  {
    exists i | 0 <= i <= |s| - |pat| :: MatchAt(s, i, pat)
  }

  /** `T\d{2}:\d{2}:\d{2}`: a time of day. */
  const TimePattern: seq<CharClass> :=
    [Lit('T'), Digit, Digit, Lit(':'), Digit, Digit, Lit(':'), Digit, Digit]

  /** `T\d{2}:\d{2}:\d{2}:\d{2}Z`: a time with a spurious fourth field. */
  const BadTimePattern: seq<CharClass> :=
    [Lit('T'), Digit, Digit, Lit(':'), Digit, Digit, Lit(':'), Digit, Digit, Lit(':'), Digit, Digit, Lit('Z')]

  /** `T\d{2}:\d{2}:\d{2}Z`: a time of day in UTC. */
  const TimeZPattern: seq<CharClass> := TimePattern + [Lit('Z')]

  const Noon: string := "T12:00:00Z"

  /** `re.sub(BadTimePattern, "T12:00:00Z", s)`: scanning from the left,
      each match is replaced and the scan resumes after it. */
  function SubBadTimes(s: string): string
    decreases |s|
  {
    if |s| == 0 then s
    else if MatchAt(s, 0, BadTimePattern) then Noon + SubBadTimes(s[|BadTimePattern|..])
    else [s[0]] + SubBadTimes(s[1..])
  }

  /** `re.search('Z$', s)`: `$` also matches before a final newline. */
  predicate ZAtEnd(s: string)
  {
    EndsWith(s, "Z") || EndsWith(s, "Z\n")
  }

  /** The repair of a citation's publication date, branch by branch.  The
      last test cannot fail once the second one has, since a UTC time is a
      time. */
  function FixPublicationDate(s: string): string
  {
    if Occurs(s, BadTimePattern) then SubBadTimes(s)
    else if Occurs(s, TimePattern) then (if !ZAtEnd(s) then s + "Z" else s)
    else if !Occurs(s, TimeZPattern) then s + Noon
    else s
  }

  /** The `publication_date` entry of a citation: None when it is skipped
      (empty, or `Not Available`), the repaired text otherwise.  `in` on a
      dictionary tests its keys and on a list its elements, and the
      regular expression then refuses anything but text. */
  function PublicationDate(v: Value): Result<Option<string>>
  {
    match v
    case VNone => Success(None)
    case VStr(s) => if Contains(s, "Not Available") then Success(None) else Success(Some(FixPublicationDate(s)))
    case VMap(m) =>
      if "Not Available" in m then Success(None) else Failure(TypeError("expected string or bytes-like object"))
    case VList(items) =>
      if VStr("Not Available") in items then Success(None)
      else Failure(TypeError("expected string or bytes-like object"))
    case _ => Failure(TypeError("argument is not iterable"))
  }

  // ---------------------------------------------------------------------
  // What the repair guarantees

  lemma NoonIsTime()
    ensures MatchAt(Noon, 0, TimePattern)
  {
  }

  function FirstT(t: string): (q: nat)
    ensures q <= |t|
    ensures forall m :: 0 <= m < q ==> t[m] != 'T'
    ensures q < |t| ==> t[q] == 'T'
    decreases |t|
  {
    if |t| == 0 || t[0] == 'T' then 0 else FirstT(t[1..]) + 1
  }

  /** Before the first `T` nothing can match, so the text is copied. */
  lemma {:induction false} SubCopiesUntilT(t: string, k: nat)
    requires k <= |t|
    requires forall m :: 0 <= m < k ==> t[m] != 'T'
    ensures k <= |SubBadTimes(t)| && SubBadTimes(t)[..k] == t[..k]
    decreases k
  {
    if k > 0 {
      assert !MatchAt(t, 0, BadTimePattern) by { assert !Fits(BadTimePattern[0], t[0]); }
      SubCopiesUntilT(t[1..], k - 1);
      assert SubBadTimes(t) == [t[0]] + SubBadTimes(t[1..]);
    }
  }

  /** The first `T` survives: it is copied, or it starts a replacement. */
  lemma {:induction false} SubKeepsFirstT(t: string, q: nat)
    requires q < |t| && t[q] == 'T'
    requires forall m :: 0 <= m < q ==> t[m] != 'T'
    ensures q < |SubBadTimes(t)| && SubBadTimes(t)[q] == 'T'
    decreases q
  {
    if q > 0 {
      assert !MatchAt(t, 0, BadTimePattern) by { assert !Fits(BadTimePattern[0], t[0]); }
      SubKeepsFirstT(t[1..], q - 1);
      assert SubBadTimes(t) == [t[0]] + SubBadTimes(t[1..]);
    }
  }

  /** A UTC time begins with a time. */
  lemma TimeZIsTime(s: string, i: int)
    requires MatchAt(s, i, TimeZPattern)
    ensures MatchAt(s, i, TimePattern)
  {
    assert s[i..i + 9] == s[i..i + 10][..9];
  }

  /** A malformed time begins with a time. */
  lemma BadTimeIsTime(s: string, i: int)
    requires MatchAt(s, i, BadTimePattern)
    ensures MatchAt(s, i, TimePattern)
  {
    assert s[i..i + 9] == s[i..i + 13][..9];
  }

  /** A match in the text after a replacement. */
  lemma NoMatchInReplacement(rest: string, p: int)
    requires 0 <= p <= |Noon + rest| - 13
    requires !Occurs(rest, BadTimePattern)
    ensures !MatchAt(Noon + rest, p, BadTimePattern)
  {
    var r := Noon + rest;
    if p == 0 {
      assert r[9] == 'Z';
      assert r[0..13][9] == r[9];
    } else if p < 10 {
      assert r[p] == Noon[p] && r[p..p + 13][0] == r[p];
    } else {
      assert r[p..p + 13] == rest[p - 10..p - 10 + 13];
      assert MatchAt(r, p, BadTimePattern) == MatchAt(rest, p - 10, BadTimePattern);
    }
  }

  /** A match at the copied first character would have been a match of the
      original text there. */
  lemma NoMatchAtCopied(s: string)
    requires |s| > 0 && !MatchAt(s, 0, BadTimePattern)
    ensures !MatchAt([s[0]] + SubBadTimes(s[1..]), 0, BadTimePattern)
  {
    var t := s[1..];
    var rest := SubBadTimes(t);
    var r := [s[0]] + rest;
    var q := FirstT(t);
    if q < 12 && q < |t| {
      SubKeepsFirstT(t, q);
      if 13 <= |r| {
        assert r[0..13][q + 1] == 'T';
      }
    } else if q >= 12 {
      SubCopiesUntilT(t, 12);
      assert s[0..13] == [s[0]] + t[..12];
      assert r[0..13] == [s[0]] + rest[..12];
    } else {
      SubNoLonger(t);
    }
  }

  /** The substitution never lengthens the text. */
  lemma {:induction false} SubNoLonger(t: string)
    ensures |SubBadTimes(t)| <= |t|
    decreases |t|
  {
    if |t| > 0 {
      if MatchAt(t, 0, BadTimePattern) {
        SubNoLonger(t[13..]);
      } else {
        SubNoLonger(t[1..]);
      }
    }
  }

  /** After the substitution no malformed time is left: a replacement
      cannot take part in a new match, and the scan has looked at every
      other position. */
  lemma {:induction false} SubRemovesBadTimes(s: string)
    ensures !Occurs(SubBadTimes(s), BadTimePattern)
    decreases |s|
  {
    if |s| == 0 {
      return;
    }
    var r := SubBadTimes(s);
    if MatchAt(s, 0, BadTimePattern) {
      var rest := SubBadTimes(s[13..]);
      SubRemovesBadTimes(s[13..]);
      assert r == Noon + rest;
      forall p | 0 <= p <= |r| - 13
        ensures !MatchAt(r, p, BadTimePattern)
      {
        NoMatchInReplacement(rest, p);
      }
    } else {
      var t := s[1..];
      var rest := SubBadTimes(t);
      SubRemovesBadTimes(t);
      assert r == [s[0]] + rest;
      forall p | 0 <= p <= |r| - 13
        ensures !MatchAt(r, p, BadTimePattern)
      {
        if p == 0 {
          NoMatchAtCopied(s);
        } else {
          assert r[p..p + 13] == rest[p - 1..p - 1 + 13];
          assert MatchAt(r, p, BadTimePattern) == MatchAt(rest, p - 1, BadTimePattern);
        }
      }
    }
  }

  /** When there was a malformed time, the substitution leaves a time,
      and a UTC one. */
  lemma {:induction false} SubLeavesTime(s: string)
    requires Occurs(s, BadTimePattern)
    ensures Occurs(SubBadTimes(s), TimePattern)
    ensures Occurs(SubBadTimes(s), TimeZPattern)
    decreases |s|
  {
    if MatchAt(s, 0, BadTimePattern) {
      var rest := SubBadTimes(s[13..]);
      assert SubBadTimes(s) == Noon + rest;
      NoonStartsTime(rest);
    } else {
      var i :| 0 <= i <= |s| - 13 && MatchAt(s, i, BadTimePattern);
      MatchAfterFirst(s, i, BadTimePattern);
      SubLeavesTime(s[1..]);
      var rest := SubBadTimes(s[1..]);
      assert SubBadTimes(s) == [s[0]] + rest;
      var j :| 0 <= j <= |rest| - 9 && MatchAt(rest, j, TimePattern);
      MatchUnderFirst(s[0], rest, j, TimePattern);
      var z :| 0 <= z <= |rest| - 10 && MatchAt(rest, z, TimeZPattern);
      MatchUnderFirst(s[0], rest, z, TimeZPattern);
    }
  }

  /** A text starting with the replacement holds a time, and a UTC one,
      at its start. */
  lemma NoonStartsTime(rest: string)
    ensures MatchAt(Noon + rest, 0, TimePattern)
    ensures MatchAt(Noon + rest, 0, TimeZPattern)
  {
    assert (Noon + rest)[0..9] == Noon[0..9];
    assert (Noon + rest)[0..10] == Noon;
  }

  /** A match after the first character is a match of the text without it. */
  lemma MatchAfterFirst(s: string, i: int, pat: seq<CharClass>)
    requires i >= 1 && MatchAt(s, i, pat)
    ensures MatchAt(s[1..], i - 1, pat)
  {
    assert s[1..][i - 1..i - 1 + |pat|] == s[i..i + |pat|];
  }

  /** A match survives a character put in front, one place further on. */
  lemma MatchUnderFirst(c: char, rest: string, j: int, pat: seq<CharClass>)
    requires MatchAt(rest, j, pat)
    ensures MatchAt([c] + rest, j + 1, pat)
  {
    assert ([c] + rest)[j + 1..j + 1 + |pat|] == rest[j..j + |pat|];
  }

  /** A time stays found when text is appended. */
  lemma TimeSurvivesAppend(s: string, tail: string)
    requires Occurs(s, TimePattern)
    ensures Occurs(s + tail, TimePattern)
  {
    var i :| 0 <= i <= |s| - 9 && MatchAt(s, i, TimePattern);
    assert (s + tail)[i..i + 9] == s[i..i + 9];
    assert MatchAt(s + tail, i, TimePattern);
  }

  /** Every repaired date carries a time of day, and is in UTC: it holds
      a `Z`-terminated time or ends in `Z`; a malformed time is replaced by
      noon UTC and none is left; a time without a final `Z` gets one; a
      date without a time gets noon UTC appended; and a date that is
      already a well-formed UTC datetime is left alone. */
  lemma FixPublicationDateSpec(s: string)
    ensures Occurs(FixPublicationDate(s), TimePattern)
    ensures Occurs(FixPublicationDate(s), TimeZPattern) || ZAtEnd(FixPublicationDate(s))
    ensures Occurs(s, BadTimePattern) ==> !Occurs(FixPublicationDate(s), BadTimePattern)
    ensures !Occurs(s, TimePattern) ==> FixPublicationDate(s) == s + Noon
    ensures Occurs(s, TimePattern) && !Occurs(s, BadTimePattern) && ZAtEnd(s) ==>
      FixPublicationDate(s) == s
    ensures Occurs(s, TimePattern) && !Occurs(s, BadTimePattern) && !ZAtEnd(s) ==>
      FixPublicationDate(s) == s + "Z"
  {
    if Occurs(s, BadTimePattern) {
      var i :| 0 <= i <= |s| - 13 && MatchAt(s, i, BadTimePattern);
      BadTimeIsTime(s, i);
      SubRemovesBadTimes(s);
      SubLeavesTime(s);
    } else if Occurs(s, TimePattern) {
      TimeSurvivesAppend(s, "Z");
    } else {
      if Occurs(s, TimeZPattern) {
        var i :| 0 <= i <= |s| - 10 && MatchAt(s, i, TimeZPattern);
        TimeZIsTime(s, i);
      }
      assert (s + Noon)[|s|..|s| + 9] == Noon[0..9];
      assert MatchAt(s + Noon, |s|, TimePattern);
    }
  }

  /** Whatever `publication_date` is written carries a time of day; text
      mentioning `Not Available` and empty dates are not written. */
  lemma PublicationDateWritten(v: Value)
    ensures PublicationDate(v).Success? && PublicationDate(v).value.Some? ==>
      v.VStr? && !Contains(v.s, "Not Available") &&
      Occurs(PublicationDate(v).value.value, TimePattern)
    ensures v == VNone ==> PublicationDate(v) == Success(None)
    ensures v.VStr? && Contains(v.s, "Not Available") ==> PublicationDate(v) == Success(None)
  {
    if v.VStr? {
      FixPublicationDateSpec(v.s);
    }
  }

  // ---------------------------------------------------------------------
  // platform_sentinel

  /** `platform_sentinel` from the collected `platform_long_name` list:
      when its first name is a Sentinel platform, that name without its
      last character (the unit letter).  The list must exist. */
  function PlatformSentinel(mydict: Doc): Result<Option<string>>
  {
    var names :- Lookup(mydict, "platform_long_name");
    match names
    case VList(items) =>
      if |items| == 0 then Failure(IndexError("list index out of range"))
      else
        (match items[0]
         case VNone => Success(None)
         case VStr(s) => if StartsWith(s, "Sentinel") then Success(Some(s[..|s| - 1])) else Success(None)
         case _ => Failure(AttributeError("startswith")))
    case _ => Failure(TypeError("platform_long_name is not a list"))
  }

  /** A sentinel family is set exactly when the first platform's name
      starts with `Sentinel`; it is that name with its last character
      dropped, so it still starts with `Sentine` and is one shorter. */
  lemma PlatformSentinelSpec(mydict: Doc, s: string, rest: seq<Value>)
    requires "platform_long_name" in mydict
    requires mydict["platform_long_name"] == VList([VStr(s)] + rest)
    ensures PlatformSentinel(mydict).Success?
    ensures PlatformSentinel(mydict).value.Some? <==> StartsWith(s, "Sentinel")
    ensures PlatformSentinel(mydict).value.Some? ==>
      var t := PlatformSentinel(mydict).value.value;
      |t| == |s| - 1 && t + [s[|s| - 1]] == s && StartsWith(t, "Sentine")
  {
    if StartsWith(s, "Sentinel") {
      var t := s[..|s| - 1];
      assert t + [s[|s| - 1]] == s;
      assert t[..7] == s[..7] == "Sentinel"[..7];
    }
  }

  /** Without a long name collected the lookup raises KeyError. */
  lemma PlatformSentinelNeedsNames(mydict: Doc)
    requires "platform_long_name" !in mydict
    ensures PlatformSentinel(mydict) == Failure(KeyError("platform_long_name"))
  {
  }
}
