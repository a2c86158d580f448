/** The allow-list setting: a comma-separated list of Telegram user ids. Both
    configuration loaders parse it with the same `ParseAllowedUsers`. */
module Config {
  import opened Results
  import opened Text

  /** The length of the run of decimal digits `s` starts with. */
  function DigitRun(s: string): (n: nat)
    ensures n <= |s|
    ensures forall k :: 0 <= k < n ==> IsDigit(s[k])
    ensures n < |s| ==> !IsDigit(s[n])
  {
    if s != [] && IsDigit(s[0]) then 1 + DigitRun(s[1..]) else 0
  }

  /** A string of digits is one run. */
  lemma {:induction false} DigitRunAll(s: string)
    requires AllDigits(s)
    ensures DigitRun(s) == |s|
  {
    if s != [] {
      DigitRunAll(s[1..]);
    }
  }

  /** `fmt.Sscanf(part, "%d", &id)` into an `int64`: an optional sign, then
      the longest run of decimal digits (at least one); whatever follows the
      run is ignored; a value outside the 64-bit range is an error. */
  function ScanInt64(s: string): (r: Option<int>)
    ensures r.Some? ==> InInt64(r.value)
    ensures r.Some? ==> |s| >= 1 && (IsDigit(s[0]) || s[0] == '+' || s[0] == '-')
  {
    var sign := if |s| > 0 && (s[0] == '+' || s[0] == '-') then 1 else 0;
    var n := DigitRun(s[sign..]);
    if n == 0 then None
    else
      assert IsDigit(s[sign..][0]);
      var magnitude := DigitsValue(s[sign..][..n]);
      var v := if sign == 1 && s[0] == '-' then 0 - magnitude else magnitude;
      if InInt64(v) then Some(v) else None
  }

  /** On a string that is exactly a number, the scanner agrees with
      `strconv.Atoi`. */
  lemma ScanAgreesWithAtoi(s: string)
    requires ParseInt64(s).Some?
    ensures ScanInt64(s) == ParseInt64(s)
  {
    if |s| >= 2 && (s[0] == '-' || s[0] == '+') && AllDigits(s[1..]) {
      DigitRunAll(s[1..]);
      assert s[1..][..|s| - 1] == s[1..];
    } else {
      DigitRunAll(s);
      assert s[0..][..|s|] == s;
    }
  }

  /** The scanner stops at the first non-digit: "12abc" is read as 12. */
  lemma ScanStopsAtNonDigit()
    ensures ScanInt64("12abc") == Some(12)
  {
    var s := "12abc";
    assert s[0..] == s;
    assert !IsDigit(s[2]);
    assert DigitRun(s[2..]) == 0;
    assert DigitRun(s[1..]) == 1;
    assert DigitRun(s) == 2;
    assert s[..2] == "12";
    assert DigitsValue("1") == 1;
    assert DigitsValue("12") == 12;
  }

  /** The `lo.FilterMap` callback over the pieces: trim white space, drop
      blank pieces and pieces the scanner rejects, keep the order. */
  function Keep(parts: seq<string>): (r: seq<int>)
    ensures |r| <= |parts|
    ensures forall i :: 0 <= i < |r| ==> InInt64(r[i])
  {
    if |parts| == 0 then []
    else
      var part := TrimSpace(parts[0]);
      var rest := Keep(parts[1..]);
      if part == [] then rest
      else
        match ScanInt64(part)
        case Some(id) => [id] + rest
        case None => rest
  }

  /** The piece `part` of the setting reads as the id `v`. */
  predicate ReadsAs(part: string, v: int) {
    ScanInt64(TrimSpace(part)) == Some(v)
  }

  /** The first piece contributes its id, if any, ahead of the rest. */
  lemma KeepHead(parts: seq<string>, v: int)
    requires |parts| > 0
    ensures v in Keep(parts) <==> ReadsAs(parts[0], v) || v in Keep(parts[1..])
    ensures ReadsAs(parts[0], v) ==> Keep(parts) == [v] + Keep(parts[1..])
  {
  }

  /** An id is kept exactly when some piece reads as it. */
  lemma {:induction false} KeepMembers(parts: seq<string>, v: int)
    ensures v in Keep(parts) <==> exists i :: 0 <= i < |parts| && ReadsAs(parts[i], v)
  {
    if |parts| > 0 {
      KeepMembers(parts[1..], v);
      KeepHead(parts, v);
      if exists i :: 1 <= i < |parts| && ReadsAs(parts[i], v) {
        var i :| 1 <= i < |parts| && ReadsAs(parts[i], v);
        assert parts[1..][i - 1] == parts[i];
      }
      if exists i :: 0 <= i < |parts[1..]| && ReadsAs(parts[1..][i], v) {
        var i :| 0 <= i < |parts[1..]| && ReadsAs(parts[1..][i], v);
        assert parts[i + 1] == parts[1..][i];
      }
    }
  }

  /** `ParseAllowedUsers`: the empty setting is the empty list; otherwise
      split at every comma and keep the pieces that read as 64-bit ids. */
  function ParseAllowedUsers(s: string): (r: seq<int>)
    ensures s == [] ==> r == []
    ensures |r| <= Count(s, ',') + 1
    ensures forall i :: 0 <= i < |r| ==> InInt64(r[i])
  {
    if s == [] then [] else Keep(Split(s, ','))
  }

  /** The ids written out with `%d`. */
  function Numbers(ids: seq<int>): (r: seq<string>)
    ensures |r| == |ids|
    ensures forall k :: 0 <= k < |r| ==> ',' !in r[k]
  {
    if |ids| == 0 then [] else [IntToString(ids[0])] + Numbers(ids[1..])
  }

  /** A rendered id has no white space at either end. */
  lemma {:induction false} NoSpaceAtEnds(n: int)
    ensures var t := IntToString(n); !IsSpace(t[0]) && !IsSpace(t[|t| - 1])
  {
    var t := IntToString(n);
    if n < 0 {
      assert t == "-" + NatToString(-n);
      assert IsDigit(NatToString(-n)[|NatToString(-n)| - 1]);
    } else {
      assert IsDigit(t[0]) && IsDigit(t[|t| - 1]);
    }
  }

  /** A string with no white space at either end is its own trim. */
  lemma TrimKeeps(t: string)
    requires t != [] && !IsSpace(t[0]) && !IsSpace(t[|t| - 1])
    ensures TrimSpace(t) == t
  {
    var i, j :| 0 <= i <= j <= |t| && TrimSpace(t) == t[i..j]
                && (forall k :: 0 <= k < i ==> IsSpace(t[k]))
                && (forall k :: j <= k < |t| ==> IsSpace(t[k]));
  }

  /** Every rendered 64-bit id is read back. */
  lemma {:induction false} KeepNumbers(ids: seq<int>)
    requires forall k :: 0 <= k < |ids| ==> InInt64(ids[k])
    ensures Keep(Numbers(ids)) == ids
  {
    if |ids| > 0 {
      var t := IntToString(ids[0]);
      NoSpaceAtEnds(ids[0]);
      TrimKeeps(t);
      ParseRender(ids[0]);
      ScanAgreesWithAtoi(t);
      KeepNumbers(ids[1..]);
      assert Numbers(ids)[1..] == Numbers(ids[1..]);
    }
  }

  /** Writing a list of 64-bit ids as the setting and parsing it gives the
      list back. */
  lemma RenderParse(ids: seq<int>)
    requires forall k :: 0 <= k < |ids| ==> InInt64(ids[k])
    ensures ParseAllowedUsers(Join(Numbers(ids), ',')) == ids
  {
    if |ids| > 0 {
      var parts := Numbers(ids);
      SplitJoin(parts, ',');
      KeepNumbers(ids);
      assert IntToString(ids[0]) != [];
      assert Join(parts, ',') != [] by {
        JoinNonEmpty(parts, ',');
      }
    }
  }

  lemma {:induction false} JoinNonEmpty(parts: seq<string>, sep: char)
    requires |parts| >= 1 && parts[0] != []
    ensures Join(parts, sep) != []
  {
  }
}
