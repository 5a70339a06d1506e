/** FormatUtil: the string helpers that do not format floating-point numbers. A null
    string is None; letter case is mapped for ASCII letters only. */
module Formatting {
  import opened Failures
  import opened Text

  // ---------------------------------------------------------------------------------
  // Masking and shortening

  /** maskAccountNumber: "****" for null or fewer than four characters; otherwise every
      character but the last four becomes '*'. */
  function MaskAccountNumber(accountNumber: Option<string>): (r: string)
    ensures accountNumber.None? || |accountNumber.value| < 4 ==> r == "****"
    ensures accountNumber.Some? && |accountNumber.value| >= 4 ==>
      var s := accountNumber.value;
      && |r| == |s|
      && r[|s| - 4..] == s[|s| - 4..]
      && forall i :: 0 <= i < |s| - 4 ==> r[i] == '*'
  {
    if accountNumber.None? || |accountNumber.value| < 4 then "****"
    else
      var s := accountNumber.value;
      Repeat('*', |s| - 4) + s[|s| - 4..]
  }

  /** Masking a masked number changes nothing, and two numbers with the same length and
      last four characters mask alike. */
  lemma MaskIdempotent(s: Option<string>, t: string)
    ensures MaskAccountNumber(Some(MaskAccountNumber(s))) == MaskAccountNumber(s)
    ensures s.Some? && |s.value| >= 4 && |t| == |s.value| && t[|t| - 4..] == s.value[|t| - 4..]
            ==> MaskAccountNumber(Some(t)) == MaskAccountNumber(s)
  {
    var m := MaskAccountNumber(s);
    assert |m| >= 4;
    var mm := MaskAccountNumber(Some(m));
    assert |mm| == |m|;
    forall i | 0 <= i < |m|
      ensures mm[i] == m[i]
    {
      if i >= |m| - 4 {
        assert mm[i] == mm[|m| - 4..][i - (|m| - 4)];
        assert m[i] == m[|m| - 4..][i - (|m| - 4)];
      }
    }
    if s.Some? && |s.value| >= 4 && |t| == |s.value| && t[|t| - 4..] == s.value[|t| - 4..] {
      var a := MaskAccountNumber(Some(t));
      forall i | 0 <= i < |t|
        ensures a[i] == m[i]
      {
        if i >= |t| - 4 {
          assert a[i] == a[|t| - 4..][i - (|t| - 4)];
          assert m[i] == m[|t| - 4..][i - (|t| - 4)];
        }
      }
    }
  }

  /** formatTransactionId: null or fewer than eight characters is returned as it is;
      otherwise the first four and the last four around "...". */
  function FormatTransactionId(transactionId: Option<string>): (r: Option<string>)
    ensures transactionId.None? || |transactionId.value| < 8 ==> r == transactionId
    ensures transactionId.Some? && |transactionId.value| >= 8 ==>
      var s := transactionId.value;
      && r.Some? && |r.value| == 11
      && r.value[..4] == s[..4] && r.value[4..7] == "..." && r.value[7..] == s[|s| - 4..]
  {
    if transactionId.None? || |transactionId.value| < 8 then transactionId
    else
      var s := transactionId.value;
      Some(s[..4] + "..." + s[|s| - 4..])
  }

  /** The ids the services generate ("TXN-" and a 36-character UUID) shorten to
      "TXN-..." and the UUID's last four characters, and shortening a shortened id again
      gives the same eleven characters. */
  lemma TransactionIdShortening(uuid: string)
    requires |uuid| == 36
    ensures FormatTransactionId(Some("TXN-" + uuid)) == Some("TXN-..." + uuid[32..])
    ensures FormatTransactionId(FormatTransactionId(Some("TXN-" + uuid))) == FormatTransactionId(Some("TXN-" + uuid))
  {
    var s := "TXN-" + uuid;
    assert s[..4] == "TXN-";
    assert s[|s| - 4..] == uuid[32..];
    var r := "TXN-..." + uuid[32..];
    assert r[..4] == "TXN-" && r[|r| - 4..] == uuid[32..];
    assert r[..4] + "..." + r[|r| - 4..] == r;
  }

  /** formatPhoneNumber: null or fewer than ten characters is returned as it is; otherwise
      "+cc xxxxx rest", a plus and two spaces inserted after characters 2 and 7. */
  function FormatPhoneNumber(phone: Option<string>): (r: Option<string>)
    ensures phone.None? || |phone.value| < 10 ==> r == phone
    ensures phone.Some? && |phone.value| >= 10 ==> r.Some? && |r.value| == |phone.value| + 3
  {
    if phone.None? || |phone.value| < 10 then phone
    else
      var s := phone.value;
      Some("+" + s[..2] + " " + s[2..7] + " " + s[7..])
  }

  /** Taking out the inserted plus and the two spaces gives back the number. */
  lemma PhoneFormattingRoundTrip(s: string)
    requires |s| >= 10
    ensures var r := FormatPhoneNumber(Some(s)).value;
            r[0] == '+' && r[3] == ' ' && r[9] == ' ' && r[1..3] + r[4..9] + r[10..] == s
  {
    var r := FormatPhoneNumber(Some(s)).value;
    assert r[1..3] == s[..2] && r[4..9] == s[2..7] && r[10..] == s[7..];
    assert s[..2] + s[2..7] + s[7..] == s;
  }

  /** truncate: null or short enough is returned as it is; otherwise the first
      maxLength - 3 characters and "...". A maxLength below 3 makes substring throw. */
  function Truncate(value: Option<string>, maxLength: int): (r: Result<Option<string>>)
    ensures value.None? || |value.value| <= maxLength ==> r == Ok(value)
    ensures value.Some? && |value.value| > maxLength ==>
      if maxLength < 3 then r == Err(IndexOutOfBounds)
      else && r.Ok? && r.value.Some? && |r.value.value| == maxLength
           && r.value.value[..maxLength - 3] == value.value[..maxLength - 3]
           && r.value.value[maxLength - 3..] == "..."
  {
    if value.None? || |value.value| <= maxLength then Ok(value)
    else if maxLength - 3 < 0 then Err(IndexOutOfBounds)
    else Ok(Some(value.value[..maxLength - 3] + "..."))
  }

  /** A truncated string already fits, so truncating it again to the same length changes
      nothing; a result never exceeds maxLength unless the input was returned untouched. */
  lemma TruncateIdempotent(value: Option<string>, maxLength: int)
    ensures Truncate(value, maxLength).Ok? ==> Truncate(Truncate(value, maxLength).value, maxLength) == Truncate(value, maxLength)
    ensures Truncate(value, maxLength).Ok? && Truncate(value, maxLength).value.Some?
            ==> |Truncate(value, maxLength).value.value| <= maxLength || |value.value| <= maxLength
  {
  }

  // ---------------------------------------------------------------------------------
  // Padding

  /** padLeft: null counts as ""; a value at least length long is returned as it is,
      otherwise padChar is repeated in front of it up to length. */
  function PadLeft(value: Option<string>, length: int, padChar: char): (r: string)
    ensures var v := if value.Some? then value.value else "";
      && |r| == (if |v| >= length then |v| else length)
      && r[|r| - |v|..] == v
      && forall i :: 0 <= i < |r| - |v| ==> r[i] == padChar
  {
    var v := if value.Some? then value.value else "";
    if |v| >= length then v else Repeat(padChar, length - |v|) + v
  }

  /** padRight: as padLeft with the padding after the value. */
  function PadRight(value: Option<string>, length: int, padChar: char): (r: string)
    ensures var v := if value.Some? then value.value else "";
      && |r| == (if |v| >= length then |v| else length)
      && r[..|v|] == v
      && forall i :: |v| <= i < |r| ==> r[i] == padChar
  {
    var v := if value.Some? then value.value else "";
    if |v| >= length then v else v + Repeat(padChar, length - |v|)
  }

  /** Padding is idempotent, and padLeft and padRight of the same value to the same length
      use the same number of pad characters. */
  lemma PaddingLaws(value: Option<string>, length: int, padChar: char)
    ensures PadLeft(Some(PadLeft(value, length, padChar)), length, padChar) == PadLeft(value, length, padChar)
    ensures PadRight(Some(PadRight(value, length, padChar)), length, padChar) == PadRight(value, length, padChar)
    ensures |PadLeft(value, length, padChar)| == |PadRight(value, length, padChar)|
  {
  }

  // ---------------------------------------------------------------------------------
  // Seconds

  /** Java's long division and remainder, which truncate toward zero. */
  function JavaDiv(a: int, b: int): int
    requires b > 0
  {
    if a >= 0 then a / b else -((-a) / b)
  }

  function JavaRem(a: int, b: int): int
    requires b > 0
  {
    a - b * JavaDiv(a, b)
  }

  /** formatSeconds: "h:mm:ss" from one hour up, "m:ss" from one minute up, otherwise
      "s seconds". A negative input has no positive hours or minutes, so only the
      truncated seconds remainder is printed. */
  function FormatSeconds(seconds: int): (r: string)
    ensures seconds >= 3600 ==>
      r == NatToString(seconds / 3600) + ":" + TwoDigits(seconds % 3600 / 60) + ":" + TwoDigits(seconds % 60)
    ensures 60 <= seconds < 3600 ==> r == NatToString(seconds / 60) + ":" + TwoDigits(seconds % 60)
    ensures 0 <= seconds < 60 ==> r == NatToString(seconds) + " seconds"
    ensures seconds < 0 ==> r == IntToString(-((-seconds) % 60)) + " seconds"
  {
    var hours := JavaDiv(seconds, 3600);
    var minutes := JavaDiv(JavaRem(seconds, 3600), 60);
    var secs := JavaRem(seconds, 60);
    if hours > 0 then IntToString(hours) + ":" + TwoDigits(minutes) + ":" + TwoDigits(secs)
    else if minutes > 0 then IntToString(minutes) + ":" + TwoDigits(secs)
    else IntToString(secs) + " seconds"
  }

  /** %02d loses nothing: reading the two digits back gives the number. */
  lemma TwoDigitsRoundTrip(n: nat)
    requires n < 100
    ensures DecimalValue(TwoDigits(n)) == n && |TwoDigits(n)| == 2
  {
    NatToStringRoundTrip(n);
    if n < 10 {
      var t := TwoDigits(n);
      assert t[..1] == "0" && "0"[..0] == [];
    } else {
      assert NatToString(n) == NatToString(n / 10) + [DigitChar(n % 10)];
    }
  }

  /** Reading the fields of "h:mm:ss" back gives the number of seconds. */
  lemma FormatSecondsRoundTrip(n: nat)
    requires n >= 3600
    ensures var h, m, s := NatToString(n / 3600), TwoDigits(n % 3600 / 60), TwoDigits(n % 60);
            && FormatSeconds(n) == h + ":" + m + ":" + s
            && |m| == 2 && |s| == 2
            && DecimalValue(h) * 3600 + DecimalValue(m) * 60 + DecimalValue(s) == n
  {
    NatToStringRoundTrip(n / 3600);
    TwoDigitsRoundTrip(n % 3600 / 60);
    TwoDigitsRoundTrip(n % 60);
  }

  /** One hour, one minute and one second prints as "1:01:01". */
  lemma FormatSecondsHourSample()
    ensures FormatSeconds(3661) == "1:01:01"
  {
    assert 3661 / 3600 == 1 && 3661 % 3600 / 60 == 1 && 3661 % 60 == 1;
    assert NatToString(1) == "1";
    assert TwoDigits(1) == "01";
  }

  /** A negative input has no positive hours or minutes, so -3661 prints only the
      truncated remainder of its seconds: "-1 seconds". */
  lemma FormatSecondsNegativeSample()
    ensures FormatSeconds(-3661) == "-1 seconds"
  {
    assert 3661 % 60 == 1;
    assert NatToString(1) == "1";
    assert IntToString(-1) == "-1";
  }

  // ---------------------------------------------------------------------------------
  // Letter case

  /** capitalize: null or blank is returned as it is; otherwise the first character is
      upper-cased and the rest lower-cased. */
  function Capitalize(value: Option<string>): (r: Option<string>)
    ensures value.None? || IsBlank(value.value) ==> r == value
    ensures value.Some? && !IsBlank(value.value) ==>
      && r.Some? && |r.value| == |value.value|
      && r.value[0] == UpperAscii(value.value[0])
      && forall i :: 1 <= i < |r.value| ==> r.value[i] == LowerAscii(value.value[i])
  {
    if value.None? || IsBlank(value.value) then value
    else
      var s := value.value;
      Some(ToUpper(s[..1]) + ToLower(s[1..]))
  }

  /** A string with a character that is not whitespace is not blank. */
  lemma NotBlankAt(s: string, i: int)
    requires 0 <= i < |s| && !IsWhitespace(s[i])
    ensures !IsBlank(s)
  {
  }

  /** Mapping ASCII letter case keeps whitespace and non-whitespace apart. */
  lemma CaseKeepsWhitespace(c: char)
    ensures IsWhitespace(UpperAscii(c)) == IsWhitespace(c) && IsWhitespace(LowerAscii(c)) == IsWhitespace(c)
  {
  }

  /** Upper-casing and lower-casing are idempotent, and each undoes the other's effect on
      what the other then sees. */
  lemma CaseLaws(c: char)
    ensures UpperAscii(UpperAscii(c)) == UpperAscii(c) && LowerAscii(LowerAscii(c)) == LowerAscii(c)
    ensures LowerAscii(UpperAscii(c)) == LowerAscii(c) && UpperAscii(LowerAscii(c)) == UpperAscii(c)
  {
  }

  /** Capitalizing twice is capitalizing once. */
  lemma CapitalizeIdempotent(s: string)
    ensures Capitalize(Capitalize(Some(s))) == Capitalize(Some(s))
  {
    if !IsBlank(s) {
      var c := Capitalize(Some(s)).value;
      var i :| 0 <= i < |s| && !IsWhitespace(s[i]);
      CaseKeepsWhitespace(s[i]);
      NotBlankAt(c, i);
      var cc := Capitalize(Some(c)).value;
      assert |cc| == |c|;
      forall k | 0 <= k < |c|
        ensures cc[k] == c[k]
      {
        CaseLaws(s[k]);
        if k == 0 {
          assert c[0] == UpperAscii(s[0]) && cc[0] == UpperAscii(c[0]);
        } else {
          assert c[k] == LowerAscii(s[k]) && cc[k] == LowerAscii(c[k]);
        }
      }
      assert cc == c;
    }
  }

  /** The result ignores the input's case. */
  lemma CapitalizeIgnoresCase(s: string)
    ensures Capitalize(Some(ToUpper(s))) == Capitalize(Some(s))
  {
    var u := ToUpper(s);
    if !IsBlank(s) {
      var i :| 0 <= i < |s| && !IsWhitespace(s[i]);
      CaseKeepsWhitespace(s[i]);
      NotBlankAt(u, i);
      var a := Capitalize(Some(u)).value;
      var b := Capitalize(Some(s)).value;
      assert |a| == |b|;
      forall k | 0 <= k < |a|
        ensures a[k] == b[k]
      {
        CaseLaws(s[k]);
      }
      assert a == b;
    } else {
      forall k | 0 <= k < |u|
        ensures u[k] == s[k]
      {
        assert IsWhitespace(s[k]);
      }
      assert u == s;
    }
  }

  // ---------------------------------------------------------------------------------
  // Removing characters

  /** removeWhitespace: replaceAll("\\s+", "") drops every regex space; null stays null. */
  function RemoveWhitespace(value: Option<string>): (r: Option<string>)
    ensures value.None? <==> r.None?
    ensures r.Some? ==> |r.value| <= |value.value| && forall i :: 0 <= i < |r.value| ==> !IsRegexSpace(r.value[i])
    ensures r.Some? ==> forall c :: !IsRegexSpace(c) ==> multiset(r.value)[c] == multiset(value.value)[c]
  {
    if value.None? then None
    else
      KeepCounts(value.value, IsNotRegexSpace);
      Some(Keep(value.value, IsNotRegexSpace))
  }

  predicate IsNotRegexSpace(c: char) {
    !IsRegexSpace(c)
  }

  predicate IsAsciiAlphanumeric(c: char) {
    IsAsciiLetter(c) || IsAsciiDigit(c)
  }

  /** removeSpecialCharacters: replaceAll("[^a-zA-Z0-9]", "") keeps ASCII letters and digits. */
  function RemoveSpecialCharacters(value: Option<string>): (r: Option<string>)
    ensures value.None? <==> r.None?
    ensures r.Some? ==> |r.value| <= |value.value| && forall i :: 0 <= i < |r.value| ==> IsAsciiAlphanumeric(r.value[i])
    ensures r.Some? ==> forall c :: IsAsciiAlphanumeric(c) ==> multiset(r.value)[c] == multiset(value.value)[c]
  {
    if value.None? then None
    else
      KeepCounts(value.value, IsAsciiAlphanumeric);
      Some(Keep(value.value, IsAsciiAlphanumeric))
  }

  /** The characters of s that satisfy p, in order. */
  function Keep(s: string, p: char -> bool): (r: string)
    ensures |r| <= |s|
    ensures forall i :: 0 <= i < |r| ==> p(r[i])
    decreases |s|
  {
    if s == [] then [] else (if p(s[0]) then [s[0]] else []) + Keep(s[1..], p)
  }

  /** Every kept character survives as often as it occurs. */
  lemma {:induction false} KeepCounts(s: string, p: char -> bool)
    ensures forall c :: p(c) ==> multiset(Keep(s, p))[c] == multiset(s)[c]
    decreases |s|
  {
    if s != [] {
      KeepCounts(s[1..], p);
      assert s == [s[0]] + s[1..];
    }
  }

  /** Filtering is idempotent and keeps a string that has nothing to drop. */
  lemma {:induction false} KeepIdempotent(s: string, p: char -> bool)
    ensures Keep(Keep(s, p), p) == Keep(s, p)
    ensures (forall i :: 0 <= i < |s| ==> p(s[i])) ==> Keep(s, p) == s
    decreases |s|
  {
    if s != [] {
      KeepIdempotent(s[1..], p);
      if p(s[0]) {
        var k := Keep(s, p);
        assert k == [s[0]] + Keep(s[1..], p);
        assert k[0] == s[0] && k[1..] == Keep(s[1..], p);
        assert Keep(k, p) == [s[0]] + Keep(k[1..], p);
        if forall i :: 0 <= i < |s| ==> p(s[i]) {
          assert forall i :: 0 <= i < |s[1..]| ==> p(s[1..][i]);
          assert [s[0]] + s[1..] == s;
        }
      } else {
        assert Keep(s, p) == [] + Keep(s[1..], p) == Keep(s[1..], p);
      }
    }
  }

  /** Filtering keeps the kept characters' order: filtering a concatenation filters each
      part. */
  lemma {:induction false} KeepConcat(s: string, t: string, p: char -> bool)
    ensures Keep(s + t, p) == Keep(s, p) + Keep(t, p)
    decreases |s|
  {
    if s == [] {
      assert s + t == t;
    } else {
      KeepConcat(s[1..], t, p);
      assert (s + t)[1..] == s[1..] + t;
      assert (s + t)[0] == s[0];
    }
  }
  /** Both removals keep the surviving characters in their order, so removing from a
      concatenation removes from each part, and a string with nothing to remove is
      returned unchanged. */
  lemma RemovalKeepsOrder(s: string, t: string)
    ensures RemoveWhitespace(Some(s + t)).value == RemoveWhitespace(Some(s)).value + RemoveWhitespace(Some(t)).value
    ensures RemoveSpecialCharacters(Some(s + t)).value
            == RemoveSpecialCharacters(Some(s)).value + RemoveSpecialCharacters(Some(t)).value
    ensures (forall i :: 0 <= i < |s| ==> !IsRegexSpace(s[i])) ==> RemoveWhitespace(Some(s)) == Some(s)
    ensures (forall i :: 0 <= i < |s| ==> IsAsciiAlphanumeric(s[i])) ==> RemoveSpecialCharacters(Some(s)) == Some(s)
  {
    KeepConcat(s, t, IsNotRegexSpace);
    KeepConcat(s, t, IsAsciiAlphanumeric);
    KeepIdempotent(s, IsNotRegexSpace);
    KeepIdempotent(s, IsAsciiAlphanumeric);
  }


  // ---------------------------------------------------------------------------------
  // Initials

  /** The longest prefix of t without a regex space. */
  function TakeWord(t: string): (w: string)
    ensures |w| <= |t| && w == t[..|w|]
    ensures forall i :: 0 <= i < |w| ==> !IsRegexSpace(w[i])
    ensures |w| < |t| ==> IsRegexSpace(t[|w|])
    decreases |t|
  {
    if t == [] || IsRegexSpace(t[0]) then [] else [t[0]] + TakeWord(t[1..])
  }

  /** t without its leading regex spaces. */
  function DropSpaces(t: string): (u: string)
    ensures |u| <= |t| && u == t[|t| - |u|..]
    ensures u == [] || !IsRegexSpace(u[0])
    decreases |t|
  {
    if t != [] && IsRegexSpace(t[0]) then DropSpaces(t[1..]) else t
  }

  /** split("\\s+") of a string that does not start with a regex space: the maximal runs
      of other characters (the trailing empty strings split drops never appear). */
  function Words(s: string): (ws: seq<string>)
    ensures forall i :: 0 <= i < |ws| ==> |ws[i]| > 0
    decreases |s|
  {
    var t := DropSpaces(s);
    if t == [] then []
    else
      var w := TakeWord(t);
      [w] + Words(t[|w|..])
  }

  /** The first character and a dot for each word that is not blank. */
  function InitialsOf(ws: seq<string>): (r: string)
    requires forall i :: 0 <= i < |ws| ==> |ws[i]| > 0
    ensures |r| % 2 == 0 && |r| <= 2 * |ws|
  {
    if ws == [] then ""
    else (if IsBlank(ws[0]) then "" else [ws[0][0], '.']) + InitialsOf(ws[1..])
  }

  /** getInitials: "" for null or blank; otherwise the initials of the trimmed name's words. */
  function GetInitials(fullName: Option<string>): (r: string)
    ensures fullName.None? || IsBlank(fullName.value) ==> r == ""
    ensures |r| % 2 == 0
    ensures forall i :: 0 <= i < |r| / 2 ==> r[2 * i + 1] == '.'
  {
    if fullName.None? || IsBlank(fullName.value) then ""
    else
      InitialsDots(Words(Trim(fullName.value)));
      InitialsOf(Words(Trim(fullName.value)))
  }

  lemma {:induction false} InitialsDots(ws: seq<string>)
    requires forall i :: 0 <= i < |ws| ==> |ws[i]| > 0
    ensures var r := InitialsOf(ws); forall i :: 0 <= i < |r| / 2 ==> r[2 * i + 1] == '.'
  {
    if ws != [] {
      InitialsDots(ws[1..]);
      var r := InitialsOf(ws);
      var rest := InitialsOf(ws[1..]);
      var head: string := if IsBlank(ws[0]) then "" else [ws[0][0], '.'];
      assert r == head + rest;
      forall i | 0 <= i < |r| / 2
        ensures r[2 * i + 1] == '.'
      {
        if |head| == 2 && i > 0 {
          assert r[2 * i + 1] == rest[2 * (i - 1) + 1];
        }
      }
    }
  }

  /** Every element is a name. */
  predicate AllNames(ns: seq<string>) {
    forall i :: 0 <= i < |ns| ==> IsName(ns[i])
  }

  /** A name: non-empty, not blank, and without a regex space inside. */
  predicate IsName(w: string) {
    |w| > 0 && !IsBlank(w) && forall j :: 0 <= j < |w| ==> !IsRegexSpace(w[j])
  }

  /** Names joined by single spaces. */
  function JoinSpaced(ns: seq<string>): string {
    if |ns| <= 1 then (if ns == [] then "" else ns[0]) else ns[0] + (" " + JoinSpaced(ns[1..]))
  }

  /** Splitting names joined by single spaces gives the names back. */
  lemma {:induction false} WordsOfJoined(ns: seq<string>)
    requires AllNames(ns)
    ensures Words(JoinSpaced(ns)) == ns
    decreases |ns|
  {
    if |ns| == 0 {
      assert JoinSpaced(ns) == [] && DropSpaces([]) == [];
    } else if |ns| == 1 {
      WordsOfJoinedOne(ns);
    } else {
      var w, rest := ns[0], ns[1..];
      AllNamesTail(ns);
      WordsOfJoined(rest);
      HeadAndTail(ns);
      WordsOfJoinedStep(ns, w, rest);
    }
  }

  lemma AllNamesTail(ns: seq<string>)
    requires |ns| > 0 && AllNames(ns)
    ensures IsName(ns[0]) && AllNames(ns[1..])
  {
  }

  lemma HeadAndTail<T>(s: seq<T>)
    requires |s| > 0
    ensures s == [s[0]] + s[1..]
  {
  }

  lemma WordsOfJoinedOne(ns: seq<string>)
    requires |ns| == 1 && IsName(ns[0])
    ensures Words(JoinSpaced(ns)) == ns
  {
    WordsOfSingleName(ns[0]);
    assert [ns[0]] == ns;
  }

  lemma WordsOfJoinedStep(ns: seq<string>, w: string, rest: seq<string>)
    requires |rest| > 0 && ns == [w] + rest && IsName(w)
    requires Words(JoinSpaced(rest)) == rest
    ensures Words(JoinSpaced(ns)) == ns
  {
    assert ns[1..] == rest;
    WordsOfNameThenWords(w, JoinSpaced(rest), rest);
  }

  lemma WordsOfSingleName(w: string)
    requires IsName(w)
    ensures Words(w) == [w]
  {
    var r := TakeWord(w);
    assert |r| == |w|;
    assert r == w[..|w|] == w;
    assert DropSpaces(w) == w;
    assert w[|r|..] == [];
    assert Words(w) == [r] + Words(w[|r|..]);
    assert DropSpaces(w[|r|..]) == [];
  }

  /** One step of WordsOfJoined: a name, a space, then text that splits into rest. */
  lemma WordsOfNameThenWords(w: string, j: string, rest: seq<string>)
    requires |w| > 0 && forall i :: 0 <= i < |w| ==> !IsRegexSpace(w[i])
    requires Words(j) == rest
    ensures Words(w + (" " + j)) == [w] + rest
  {
    WordsSkipSpace(j);
    WordsOfName(w, " " + j);
  }

  /** A name followed by nothing or by a regex space splits off as the first word. */
  lemma WordsOfName(w: string, rest: string)
    requires |w| > 0 && forall i :: 0 <= i < |w| ==> !IsRegexSpace(w[i])
    requires rest == [] || IsRegexSpace(rest[0])
    ensures Words(w + rest) == [w] + Words(rest)
  {
    TakeWordOfName(w, rest);
    assert (w + rest)[0] == w[0];
    assert DropSpaces(w + rest) == w + rest;
    assert (w + rest)[|w|..] == rest;
  }

  /** A leading space does not change the words. */
  lemma WordsSkipSpace(x: string)
    ensures Words(" " + x) == Words(x)
  {
    assert (" " + x)[1..] == x;
    assert DropSpaces(" " + x) == DropSpaces(x);
  }

  lemma {:induction false} TakeWordOfName(w: string, rest: string)
    requires forall i :: 0 <= i < |w| ==> !IsRegexSpace(w[i])
    requires rest == [] || IsRegexSpace(rest[0])
    ensures TakeWord(w + rest) == w
    decreases |w|
  {
    if w != [] {
      TakeWordOfName(w[1..], rest);
      assert (w + rest)[1..] == w[1..] + rest;
    }
  }

  /** For a full name made of names joined by single spaces, with nothing trim removes at
      either end, the initials are each name's first character followed by a dot. */
  lemma InitialsOfJoinedNames(ns: seq<string>)
    requires |ns| > 0 && AllNames(ns)
    requires ns[0][0] > ' ' && ns[|ns| - 1][|ns[|ns| - 1]| - 1] > ' '
    ensures |GetInitials(Some(JoinSpaced(ns)))| == 2 * |ns|
    ensures forall i :: 0 <= i < |ns| ==> GetInitials(Some(JoinSpaced(ns)))[2 * i] == ns[i][0]
  {
    var s := JoinSpaced(ns);
    JoinedEnds(ns);
    assert !IsBlank(s) by {
      assert !IsWhitespace(s[0]) || !IsBlank(ns[0]);
      if IsWhitespace(s[0]) {
        var i :| 0 <= i < |ns[0]| && !IsWhitespace(ns[0][i]);
        JoinedPrefix(ns);
        assert s[i] == ns[0][i];
      }
    }
    assert TrimStart(s) == s;
    assert Trim(s) == s;
    WordsOfJoined(ns);
    InitialsOfNames(ns);
  }

  lemma {:induction false} InitialsOfNames(ns: seq<string>)
    requires AllNames(ns)
    ensures |InitialsOf(ns)| == 2 * |ns|
    ensures forall i :: 0 <= i < |ns| ==> InitialsOf(ns)[2 * i] == ns[i][0]
    decreases |ns|
  {
    if ns != [] {
      InitialsOfNames(ns[1..]);
      var r := InitialsOf(ns);
      assert r == [ns[0][0], '.'] + InitialsOf(ns[1..]);
      forall i | 0 <= i < |ns|
        ensures r[2 * i] == ns[i][0]
      {
        if i > 0 {
          assert r[2 * i] == InitialsOf(ns[1..])[2 * (i - 1)];
        }
      }
    }
  }

  /** The joined string starts with the first name's first character and ends with the
      last name's last character. */
  lemma {:induction false} JoinedEnds(ns: seq<string>)
    requires |ns| > 0 && AllNames(ns)
    ensures |JoinSpaced(ns)| > 0
    ensures JoinSpaced(ns)[0] == ns[0][0]
    ensures JoinSpaced(ns)[|JoinSpaced(ns)| - 1] == ns[|ns| - 1][|ns[|ns| - 1]| - 1]
    decreases |ns|
  {
    if |ns| > 1 {
      var rest := ns[1..];
      assert AllNames(rest);
      JoinedEnds(rest);
      var j := JoinSpaced(rest);
      var s := JoinSpaced(ns);
      assert s == ns[0] + (" " + j);
      assert s[|s| - 1] == j[|j| - 1];
      assert rest[|rest| - 1] == ns[|ns| - 1];
    }
  }

  lemma JoinedPrefix(ns: seq<string>)
    requires |ns| > 0
    ensures |ns[0]| <= |JoinSpaced(ns)| && JoinSpaced(ns)[..|ns[0]|] == ns[0]
  {
  }

  // ---------------------------------------------------------------------------------
  // Tables and flags

  const ColumnWidth: nat := 15

  /** formatTableRow: "|" and, per column, a space, the column padded right to 15
      characters, and " |". */
  function FormatTableRow(columns: seq<Option<string>>): (r: string)
    ensures |r| >= 1 + 18 * |columns| && r[0] == '|'
    ensures (forall i :: 0 <= i < |columns| ==> columns[i].None? || |columns[i].value| <= ColumnWidth)
            ==> |r| == 1 + 18 * |columns|
    ensures (forall i :: 0 <= i < |columns| ==> columns[i].None? || |columns[i].value| <= ColumnWidth)
            ==> forall i :: 0 <= i < |columns| ==> r[1 + 18 * i..19 + 18 * i] == Cell(columns[i])
  {
    if columns == [] then "|"
    else
      var prev := FormatTableRow(columns[..|columns| - 1]);
      var r := prev + Cell(columns[|columns| - 1]);
      CellsOfLongerRow(columns, prev, r);
      r
  }

  /** The step of FormatTableRow's cell clause: appending the last column's cell keeps the
      earlier cells where they were and puts the new one right after them. */
  lemma CellsOfLongerRow(columns: seq<Option<string>>, prev: string, r: string)
    requires |columns| > 0 && r == prev + Cell(columns[|columns| - 1])
    requires |prev| >= 1 + 18 * (|columns| - 1)
    requires (forall i :: 0 <= i < |columns| ==> columns[i].None? || |columns[i].value| <= ColumnWidth)
             ==> |prev| == 1 + 18 * (|columns| - 1)
                 && forall i :: 0 <= i < |columns| - 1 ==> prev[1 + 18 * i..19 + 18 * i] == Cell(columns[..|columns| - 1][i])
    ensures (forall i :: 0 <= i < |columns| ==> columns[i].None? || |columns[i].value| <= ColumnWidth)
            ==> |r| == 1 + 18 * |columns| && forall i :: 0 <= i < |columns| ==> r[1 + 18 * i..19 + 18 * i] == Cell(columns[i])
  {
    var n := |columns|;
    if forall i :: 0 <= i < n ==> columns[i].None? || |columns[i].value| <= ColumnWidth {
      var c := columns[n - 1];
      assert |PadRight(c, ColumnWidth, ' ')| == ColumnWidth;
      assert |r| == 1 + 18 * n;
      forall i | 0 <= i < n
        ensures r[1 + 18 * i..19 + 18 * i] == Cell(columns[i])
      {
        if i < n - 1 {
          assert columns[..n - 1][i] == columns[i];
          assert r[1 + 18 * i..19 + 18 * i] == prev[1 + 18 * i..19 + 18 * i];
        } else {
          assert r[1 + 18 * i..19 + 18 * i] == r[|prev|..];
        }
      }
    }
  }

  /** One column of a table row: a space, the column padded right to fifteen characters,
      and " |". */
  function Cell(column: Option<string>): string {
    " " + PadRight(column, ColumnWidth, ' ') + " |"
  }

  /** createTableSeparator: "+" and, per column, seventeen dashes and "+". A count below
      one gives "+". */
  function CreateTableSeparator(columnCount: int): (r: string)
    ensures |r| == 1 + 18 * (if columnCount > 0 then columnCount else 0)
    ensures r[0] == '+' && r[|r| - 1] == '+'
    ensures forall i :: 0 <= i < |r| ==> (r[i] == '+' <==> i % 18 == 0)
    decreases columnCount
  {
    if columnCount <= 0 then "+"
    else
      var prev := CreateTableSeparator(columnCount - 1);
      var r := prev + Repeat('-', 17) + "+";
      assert forall i :: |prev| <= i < |r| ==> (r[i] == '+' <==> i % 18 == 0);
      r
  }

  /** A row of columns that each fit in fifteen characters is exactly as wide as the
      separator for that many columns, so the table's borders line up. */
  lemma RowFitsSeparator(columns: seq<Option<string>>)
    requires forall i :: 0 <= i < |columns| ==> columns[i].None? || |columns[i].value| <= ColumnWidth
    ensures |FormatTableRow(columns)| == |CreateTableSeparator(|columns|)|
  {
  }

  /** formatBoolean */
  function FormatBoolean(value: bool): (r: string)
    ensures r == "Yes" <==> value
    ensures r == "No" <==> !value
  {
    if value then "Yes" else "No"
  }

  /** formatStatus: the upper-cased status picks a decorated label; any other status is
      returned as it is; a null status throws. */
  function FormatStatus(status: Option<string>): (r: Result<string>)
    ensures r.Err? <==> status.None?
    ensures r.Err? ==> r.error == NullReference
  {
    if status.None? then Err(NullReference)
    else
      match ToUpper(status.value)
      case "ACTIVE" => Ok("✓ Active")
      case "INACTIVE" => Ok("✗ Inactive")
      case "PENDING" => Ok("⏳ Pending")
      case "APPROVED" => Ok("✓ Approved")
      case "REJECTED" => Ok("✗ Rejected")
      case "COMPLETED" => Ok("✓ Completed")
      case "FAILED" => Ok("✗ Failed")
      case _ => Ok(status.value)
  }

  /** The label depends only on the status's letters, not their case. */
  lemma FormatStatusIgnoresCase(s: string)
    ensures ToUpper(s) in KnownStatuses ==> FormatStatus(Some(ToLower(s))) == FormatStatus(Some(s))
    ensures ToUpper(s) !in KnownStatuses ==> FormatStatus(Some(s)) == Ok(s)
  {
    assert ToUpper(ToLower(s)) == ToUpper(s) by {
      forall i | 0 <= i < |s|
        ensures ToUpper(ToLower(s))[i] == ToUpper(s)[i]
      {
      }
    }
  }

  /** The label of a known status, in any case, is a mark, a space and the status
      capitalized; the mark is a tick for the three settled-good statuses, an hourglass for
      PENDING and a cross otherwise. */
  lemma FormatStatusLabels(s: string)
    requires ToUpper(s) in KnownStatuses
    ensures FormatStatus(Some(s)).Ok?
    ensures var shown := FormatStatus(Some(s)).value;
      && |shown| == |s| + 2 && shown[1] == ' ' && Some(shown[2..]) == Capitalize(Some(s))
    ensures FormatStatus(Some(s)).value[0] == '✓' <==> ToUpper(s) in {"ACTIVE", "APPROVED", "COMPLETED"}
    ensures FormatStatus(Some(s)).value[0] == '⏳' <==> ToUpper(s) == "PENDING"
  {
    var u := ToUpper(s);
    if u == "ACTIVE" {
      ActiveRow(s);
    } else if u == "INACTIVE" {
      InactiveRow(s);
    } else if u == "PENDING" {
      PendingRow(s);
    } else if u == "APPROVED" {
      ApprovedRow(s);
    } else if u == "REJECTED" {
      RejectedRow(s);
    } else if u == "COMPLETED" {
      CompletedRow(s);
    } else if u == "FAILED" {
      FailedRow(s);
    }
  }

  /** The rows of the label table, one status each. */
  lemma ActiveRow(s: string)
    requires ToUpper(s) == "ACTIVE"
    ensures FormatStatus(Some(s)) == Ok("✓ Active")
    ensures var shown := FormatStatus(Some(s)).value;
      && |shown| == |s| + 2 && shown[1] == ' ' && Some(shown[2..]) == Capitalize(Some(s))
  {
    assert ['✓'] + " " + "Active" == "✓ Active";
    assert ToUpper(s)[0] == 'A' && ToUpper(s)[1..] == "CTIVE";
    LowerWord("CTIVE", "ctive");
    LabelParts(s, '✓', "Active");
  }

  lemma InactiveRow(s: string)
    requires ToUpper(s) == "INACTIVE"
    ensures FormatStatus(Some(s)) == Ok("✗ Inactive")
    ensures var shown := FormatStatus(Some(s)).value;
      && |shown| == |s| + 2 && shown[1] == ' ' && Some(shown[2..]) == Capitalize(Some(s))
  {
    assert ['✗'] + " " + "Inactive" == "✗ Inactive";
    assert ToUpper(s)[0] == 'I' && ToUpper(s)[1..] == "NACTIVE";
    LowerWord("NACTIVE", "nactive");
    LabelParts(s, '✗', "Inactive");
  }

  lemma PendingRow(s: string)
    requires ToUpper(s) == "PENDING"
    ensures FormatStatus(Some(s)) == Ok("⏳ Pending")
    ensures var shown := FormatStatus(Some(s)).value;
      && |shown| == |s| + 2 && shown[1] == ' ' && Some(shown[2..]) == Capitalize(Some(s))
  {
    assert ['⏳'] + " " + "Pending" == "⏳ Pending";
    assert ToUpper(s)[0] == 'P' && ToUpper(s)[1..] == "ENDING";
    LowerWord("ENDING", "ending");
    LabelParts(s, '⏳', "Pending");
  }

  lemma ApprovedRow(s: string)
    requires ToUpper(s) == "APPROVED"
    ensures FormatStatus(Some(s)) == Ok("✓ Approved")
    ensures var shown := FormatStatus(Some(s)).value;
      && |shown| == |s| + 2 && shown[1] == ' ' && Some(shown[2..]) == Capitalize(Some(s))
  {
    assert ['✓'] + " " + "Approved" == "✓ Approved";
    assert ToUpper(s)[0] == 'A' && ToUpper(s)[1..] == "PPROVED";
    LowerWord("PPROVED", "pproved");
    LabelParts(s, '✓', "Approved");
  }

  lemma RejectedRow(s: string)
    requires ToUpper(s) == "REJECTED"
    ensures FormatStatus(Some(s)) == Ok("✗ Rejected")
    ensures var shown := FormatStatus(Some(s)).value;
      && |shown| == |s| + 2 && shown[1] == ' ' && Some(shown[2..]) == Capitalize(Some(s))
  {
    assert ['✗'] + " " + "Rejected" == "✗ Rejected";
    assert ToUpper(s)[0] == 'R' && ToUpper(s)[1..] == "EJECTED";
    LowerWord("EJECTED", "ejected");
    LabelParts(s, '✗', "Rejected");
  }

  lemma CompletedRow(s: string)
    requires ToUpper(s) == "COMPLETED"
    ensures FormatStatus(Some(s)) == Ok("✓ Completed")
    ensures var shown := FormatStatus(Some(s)).value;
      && |shown| == |s| + 2 && shown[1] == ' ' && Some(shown[2..]) == Capitalize(Some(s))
  {
    assert ['✓'] + " " + "Completed" == "✓ Completed";
    assert ToUpper(s)[0] == 'C' && ToUpper(s)[1..] == "OMPLETED";
    LowerWord("OMPLETED", "ompleted");
    LabelParts(s, '✓', "Completed");
  }

  lemma FailedRow(s: string)
    requires ToUpper(s) == "FAILED"
    ensures FormatStatus(Some(s)) == Ok("✗ Failed")
    ensures var shown := FormatStatus(Some(s)).value;
      && |shown| == |s| + 2 && shown[1] == ' ' && Some(shown[2..]) == Capitalize(Some(s))
  {
    assert ['✗'] + " " + "Failed" == "✗ Failed";
    assert ToUpper(s)[0] == 'F' && ToUpper(s)[1..] == "AILED";
    LowerWord("AILED", "ailed");
    LabelParts(s, '✗', "Failed");
  }

  /** One row of the label table: the label is the mark, a space and the word, and the
      word is the status capitalized. */
  lemma LabelParts(s: string, mark: char, word: string)
    requires FormatStatus(Some(s)) == Ok([mark] + " " + word)
    requires |word| > 0 && word[0] == ToUpper(s)[0] && word[1..] == ToLower(ToUpper(s)[1..])
    ensures var shown := FormatStatus(Some(s)).value;
      && |shown| == |s| + 2 && shown[1] == ' ' && Some(shown[2..]) == Capitalize(Some(s))
  {
    var u := ToUpper(s);
    CapitalizeIgnoresCase(s);
    CaseLaws(s[0]);
    NotBlankAt(u, 0);
    assert ToUpper(u[..1]) == [u[0]];
    assert Capitalize(Some(u)).value == word;
    assert FormatStatus(Some(s)).value[2..] == word;
  }

  /** Lower-casing an upper-case ASCII word, checked character by character. */
  lemma LowerWord(upper: string, lower: string)
    requires |upper| == |lower|
    requires forall i :: 0 <= i < |upper| ==> 'A' <= upper[i] <= 'Z' && lower[i] as int == upper[i] as int + 32
    ensures ToLower(upper) == lower
  {
  }

  const KnownStatuses: set<string> := {"ACTIVE", "INACTIVE", "PENDING", "APPROVED", "REJECTED", "COMPLETED", "FAILED"}
}
