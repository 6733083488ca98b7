/** The text form of a refresh entry in Redis (internal/auth/refresh_token.go): six fields between bars, and the
    splitter and parser that read them back. Strings are sequences of bytes, a separator is one byte. */
module Splitting {
  function Join(parts: seq<string>, sep: char): string
    requires parts != []
  {
    if |parts| == 1 then parts[0] else parts[0] + [sep] + Join(parts[1..], sep)
  }

  function Seps(s: string, sep: char): nat {
    if s == [] then 0 else (if s[0] == sep then 1 else 0) + Seps(s[1..], sep)
  }

  function IndexOf(s: string, c: char): (i: nat)
    requires c in s
    ensures i < |s| && s[i] == c && forall k :: 0 <= k < i ==> s[k] != c
  {
    if s[0] == c then 0 else 1 + IndexOf(s[1..], c)
  }

  /** Cuts at the first n - 1 separators. */
  function Split(s: string, sep: char, n: int): seq<string>
    decreases |s|
  {
    if n <= 1 || sep !in s then [s]
    else var i := IndexOf(s, sep); [s[..i]] + Split(s[i + 1..], sep, n - 1)
  }

  /** The parts but the last are free of the separator. */
  predicate Clean(parts: seq<string>, sep: char) {
    forall i :: 0 <= i < |parts| - 1 ==> sep !in parts[i]
  }

  function PartsWanted(s: string, sep: char, n: int): nat {
    if n <= 1 then 1 else if Seps(s, sep) + 1 < n then Seps(s, sep) + 1 else n
  }

  lemma SplitEnds(s: string, sep: char, n: int)
    requires n <= 1 || sep !in s
    ensures Split(s, sep, n) == [s]
  {
  }

  lemma FirstIndex(s: string, c: char, i: nat)
    requires i < |s| && s[i] == c && c !in s[..i]
    ensures IndexOf(s, c) == i
  {
    forall k | 0 <= k < i ensures s[k] != c { assert s[k] == s[..i][k]; }
  }

  lemma SplitCuts(s: string, sep: char, n: int, i: nat)
    requires i < |s| && s[i] == sep && sep !in s[..i] && n > 1
    ensures Split(s, sep, n) == [s[..i]] + Split(s[i + 1..], sep, n - 1)
  {
    FirstIndex(s, sep, i);
  }

  /** The loop of splitString. */
  method SplitString(s: string, sep: char, n: int) returns (parts: seq<string>)
    ensures parts == Split(s, sep, n)
  {
    hide Split, IndexOf;
    parts := [];
    var start := 0;
    assert s[0..] == s;
    for i := 0 to |s|
      invariant 0 <= start <= i && (|parts| < n - 1 ==> sep !in s[start..i])
      invariant Split(s, sep, n) == parts + Split(s[start..], sep, n - |parts|)
    {
      if s[i] == sep && |parts| < n - 1 {
        assert s[start..][..i - start] == s[start..i] && s[start..][i - start + 1..] == s[i + 1..];
        SplitCuts(s[start..], sep, n - |parts|, i - start);
        parts := parts + [s[start..i]];
        start := i + 1;
      } else if |parts| < n - 1 {
        assert s[start..i + 1] == s[start..i] + [s[i]];
      }
    }
    assert s[start..|s|] == s[start..];
    SplitEnds(s[start..], sep, n - |parts|);
    parts := parts + [s[start..]];
  }

  /** Joining the parts gives back the text, for every text and every limit. */
  lemma {:induction false} JoinSplit(s: string, sep: char, n: int)
    ensures Split(s, sep, n) != [] && Join(Split(s, sep, n), sep) == s
    decreases |s|
  {
    hide Split;
    if n <= 1 || sep !in s {
      SplitEnds(s, sep, n);
    } else {
      var i := IndexOf(s, sep);
      SplitCuts(s, sep, n, i);
      JoinSplit(s[i + 1..], sep, n - 1);
      assert Split(s, sep, n)[1..] == Split(s[i + 1..], sep, n - 1);
      assert s == s[..i] + [sep] + s[i + 1..];
    }
  }

  lemma {:induction false} SepsOfConcat(s: string, t: string, sep: char)
    ensures Seps(s + t, sep) == Seps(s, sep) + Seps(t, sep)
  {
    if s == [] {
      assert s + t == t;
    } else {
      assert (s + t)[1..] == s[1..] + t;
      SepsOfConcat(s[1..], t, sep);
    }
  }

  lemma {:induction false} NoSeps(s: string, sep: char)
    ensures Seps(s, sep) == 0 <==> sep !in s
  {
    if s == [] {
    } else {
      NoSeps(s[1..], sep);
    }
  }

  lemma SepsAfter(s: string, sep: char, i: nat)
    requires i < |s| && s[i] == sep && sep !in s[..i]
    ensures Seps(s, sep) == 1 + Seps(s[i + 1..], sep)
  {
    var rest := s[i..];
    assert s == s[..i] + rest;
    SepsOfConcat(s[..i], rest, sep);
    NoSeps(s[..i], sep);
    assert rest[1..] == s[i + 1..];
  }

  /** As many parts as there are separators plus one, up to the limit, and only the last may hold separators. */
  lemma {:induction false} SplitShape(s: string, sep: char, n: int)
    ensures |Split(s, sep, n)| == PartsWanted(s, sep, n)
    ensures Clean(Split(s, sep, n), sep)
    decreases |s|
  {
    hide Split, Seps;
    NoSeps(s, sep);
    if n <= 1 || sep !in s {
      SplitEnds(s, sep, n);
    } else {
      var i := IndexOf(s, sep);
      SplitCuts(s, sep, n, i);
      SepsAfter(s, sep, i);
      SplitShape(s[i + 1..], sep, n - 1);
    }
  }

  /** There is no other way to cut the text like that: the parts are determined by their join and their shape. */
  lemma {:induction false} SplitIsUnique(parts: seq<string>, sep: char, n: int)
    requires parts != [] && Clean(parts, sep)
    requires |parts| == n || (|parts| < n && sep !in parts[|parts| - 1])
    ensures Split(Join(parts, sep), sep, n) == parts
  {
    hide Split;
    var s := Join(parts, sep);
    if |parts| == 1 {
      SplitEnds(s, sep, n);
    } else {
      var i, rest := |parts[0]|, Join(parts[1..], sep);
      assert s == parts[0] + [sep] + rest;
      assert s[i] == sep && s[..i] == parts[0] && s[i + 1..] == rest;
      SplitCuts(s, sep, n, i);
      SplitIsUnique(parts[1..], sep, n - 1);
    }
  }
}

module Decimals {
  import opened Int64
  import opened Options

  predicate IsDigit(c: char) { '0' <= c <= '9' }

  function Digit(d: nat): char
    requires d < 10
  {
    '0' + d as char
  }

  function Digits(n: nat): string {
    if n < 10 then [Digit(n)] else Digits(n / 10) + [Digit(n % 10)]
  }

  /** %d */
  function Print(z: int): string {
    if z < 0 then "-" + Digits(-z) else Digits(z)
  }

  function ParseDigits(s: string): Option<nat> {
    if s == [] || !IsDigit(s[|s| - 1]) then None
    else
      var d := s[|s| - 1] as nat - '0' as nat;
      if |s| == 1 then Some(d)
      else match ParseDigits(s[..|s| - 1]) case Some(n) => Some(10 * n + d) case None => None
  }

  /** strconv.ParseInt for base 10 and 64 bits: an optional sign, digits, and a value in range. */
  function ParseInt64(s: string): Option<int> {
    var signed := s != [] && (s[0] == '-' || s[0] == '+');
    match ParseDigits(if signed then s[1..] else s)
    case Some(n) =>
      var z: int := if signed && s[0] == '-' then 0 - n else n;
      if IsInt64(z) then Some(z) else None
    case None => None
  }

  lemma {:induction false} ParsesDigits(n: nat)
    ensures ParseDigits(Digits(n)) == Some(n)
    ensures forall c :: c in Digits(n) ==> IsDigit(c)
  {
    if n >= 10 {
      ParsesDigits(n / 10);
      assert Digits(n)[..|Digits(n)| - 1] == Digits(n / 10);
    }
  }

  lemma PrintedNat(n: nat)
    ensures Digits(n) != [] && ParseDigits(Digits(n)) == Some(n)
    ensures forall i :: 0 <= i < |Digits(n)| ==> IsDigit(Digits(n)[i])
  {
    ParsesDigits(n);
    forall i | 0 <= i < |Digits(n)| ensures IsDigit(Digits(n)[i]) { assert Digits(n)[i] in Digits(n); }
  }

  /** A printed integer reads back exactly when it fits 64 bits. */
  lemma ParsesPrinted(z: int)
    ensures ParseInt64(Print(z)) == if IsInt64(z) then Some(z) else None
    ensures forall i :: 0 <= i < |Print(z)| ==> IsDigit(Print(z)[i]) || (i == 0 && Print(z)[i] == '-')
  {
    hide Digits, ParseDigits;
    if z < 0 {
      PrintedNat(-z);
      assert Print(z)[1..] == Digits(-z);
    } else {
      PrintedNat(z);
    }
  }

  /** Decimal as one writes it: the most significant digit first and no zeros before it, a minus in front. */
  lemma PrintedInDecimal(n: nat, d: nat)
    requires d < 10
    ensures Print(d) == ["0123456789"[d]] && (n > 0 ==> Print(10 * n + d) == Print(n) + ["0123456789"[d]])
    ensures n > 0 ==> Print(0 - n) == "-" + Print(n)
  {
    assert Digit(d) == "0123456789"[d];
  }

  /** Only digits read as a number. */
  lemma {:induction false} OnlyDigitsParse(s: string)
    ensures ParseDigits(s).Some? <==> s != [] && forall i :: 0 <= i < |s| ==> '0' <= s[i] <= '9'
  {
    if s == [] {
    } else {
      OnlyDigitsParse(s[..|s| - 1]);
    }
  }

  lemma LastDigit(t: string)
    requires t != [] && '0' <= t[|t| - 1] <= '9'
    ensures
      var p, d := t[..|t| - 1], t[|t| - 1] as nat - 48;
      ParseDigits(t) == if |t| == 1 then Some(d)
                        else if ParseDigits(p).Some? then Some(10 * ParseDigits(p).value + d) else None
  {
  }

  /** Each next digit counts for one and those before it for ten times as much. */
  lemma NextDigit(s: string, c: char)
    requires '0' <= c <= '9'
    ensures s == [] ==> ParseDigits(s + [c]) == Some(c as nat - 48)
    ensures s != [] && ParseDigits(s).Some? ==>
      ParseDigits(s + [c]) == Some(10 * ParseDigits(s).value + (c as nat - 48))
  {
    hide ParseDigits;
    var t := s + [c];
    assert t[..|t| - 1] == s && t[|t| - 1] == c;
    LastDigit(t);
  }

  /** A sign may stand in front; a number that does not fit 64 bits reads as none. */
  lemma SignedParses(s: string, sign: char)
    requires sign == '+' || sign == '-'
    ensures ParseDigits(s).None? ==> ParseInt64([sign] + s) == None
    ensures ParseDigits(s).Some? ==>
      var z := if sign == '-' then 0 - ParseDigits(s).value else ParseDigits(s).value;
      ParseInt64([sign] + s) == if MIN_INT64 <= z <= MAX_INT64 then Some(z) else None
  {
    hide ParseDigits;
    var t := [sign] + s;
    assert t[0] == sign && t[1..] == s;
  }

  lemma UnsignedParses(s: string)
    requires s == [] || (s[0] != '-' && s[0] != '+')
    ensures ParseInt64(s).Some? <==> ParseDigits(s).Some? && ParseDigits(s).value <= MAX_INT64
    ensures ParseInt64(s).Some? ==> ParseInt64(s).value == ParseDigits(s).value
  {
    hide ParseDigits;
  }
}

module TokenCodec {
  import opened Decimals
  import opened Int64
  import opened Options
  import opened RefreshStore
  import opened Splitting

  const BAR := '|'
  const FIELDS := 6
  const SECOND := 1_000_000_000

  /** January 1 of year 1, the zero of time.Time, in nanoseconds from the Unix epoch. */
  const ZERO_TIME := -62_135_596_800 * SECOND

  /** time.Parse with the RFC 3339 layout, of which only this matters here: a full date has a hyphen in fifth place
      (section 5.6 of RFC 3339). */
  ghost predicate IsRFC3339(parse: string -> Option<int>) {
    forall s :: parse(s).Some? ==> |s| > 4 && s[4] == '-'
  }

  /** Whole seconds, rounded down. */
  function Unix(t: int): int { t / SECOND }

  function ToSecond(t: int): int { Unix(t) * SECOND }

  function Fields(e: Entry): seq<string> {
    [e.userID, e.role, e.deviceInfo, e.ipAddress, Print(Unix(e.createdAt)), Print(Unix(e.expiresAt))]
  }

  function Encode(e: Entry): string {
    e.userID + "|" + e.role + "|" + e.deviceInfo + "|" + e.ipAddress + "|"
    + Print(Unix(e.createdAt)) + "|" + Print(Unix(e.expiresAt))
  }

  /** An RFC 3339 date, or else Unix seconds, or else the epoch. */
  function ParseTime(s: string, rfc3339: string -> Option<int>): int {
    var t := rfc3339(s).GetOr(ZERO_TIME);
    if t == ZERO_TIME then ParseInt64(s).GetOr(0) * SECOND else t
  }

  function ParseRefreshEntry(tokenID: string, data: string, rfc3339: string -> Option<int>): Option<Entry> {
    var parts := Split(data, BAR, FIELDS);
    if |parts| < FIELDS then None
    else Some(Entry(tokenID, parts[0], parts[1], parts[2], parts[3],
                    ParseTime(parts[4], rfc3339), ParseTime(parts[5], rfc3339)))
  }

  predicate BarFree(e: Entry) {
    BAR !in e.userID && BAR !in e.role && BAR !in e.deviceInfo && BAR !in e.ipAddress
  }

  lemma EncodeIsJoin(e: Entry)
    ensures Encode(e) == Join(Fields(e), BAR)
  {
    var f := Fields(e);
    assert f[1..][1..] == f[2..] && f[2..][1..] == f[3..] && f[3..][1..] == f[4..] && f[4..][1..] == f[5..];
    assert Join(f[4..], BAR) == f[4] + "|" + f[5];
    assert Join(f[3..], BAR) == f[3] + "|" + Join(f[4..], BAR);
    assert Join(f[2..], BAR) == f[2] + "|" + Join(f[3..], BAR);
    assert Join(f[1..], BAR) == f[1] + "|" + Join(f[2..], BAR);
    assert Join(f, BAR) == f[0] + "|" + Join(f[1..], BAR);
  }

  /** A printed number of seconds is read as that, by the second of the two readings. */
  lemma ParsesTime(t: int, rfc3339: string -> Option<int>)
    requires IsRFC3339(rfc3339) && IsInt64(Unix(t))
    ensures ParseTime(Print(Unix(t)), rfc3339) == ToSecond(t) && BAR !in Print(Unix(t))
  {
    ParsesPrinted(Unix(t));
    var p := Print(Unix(t));
    assert |p| > 4 ==> IsDigit(p[4]);
  }

  lemma {:induction false} BarsInJoin(parts: seq<string>)
    requires parts != []
    ensures Seps(Join(parts, BAR), BAR) >= |parts| - 1
  {
    if |parts| > 1 {
      BarsInJoin(parts[1..]);
      SepsOfConcat(parts[0] + [BAR], Join(parts[1..], BAR), BAR);
      SepsOfConcat(parts[0], [BAR], BAR);
    }
  }

  lemma BarsInEncode(e: Entry)
    ensures Seps(Encode(e), BAR) >= FIELDS - 1
  {
    EncodeIsJoin(e);
    BarsInJoin(Fields(e));
  }

  /** Only the last field read may have a bar in it. */
  lemma FirstFieldsAreBarFree(e: Entry)
    ensures var parts := Split(Encode(e), BAR, FIELDS);
      |parts| == FIELDS && forall i :: 0 <= i < 5 ==> BAR !in parts[i]
  {
    hide Split, Encode;
    BarsInEncode(e);
    SplitShape(Encode(e), BAR, FIELDS);
  }

  predicate SameText(r: Entry, e: Entry) {
    r.userID == e.userID && r.role == e.role && r.deviceInfo == e.deviceInfo && r.ipAddress == e.ipAddress
  }

  lemma BarFreeParses(e: Entry, rfc3339: string -> Option<int>)
    requires IsRFC3339(rfc3339) && IsInt64(Unix(e.createdAt)) && IsInt64(Unix(e.expiresAt)) && BarFree(e)
    ensures ParseRefreshEntry(e.tokenID, Encode(e), rfc3339)
              == Some(e.(createdAt := ToSecond(e.createdAt), expiresAt := ToSecond(e.expiresAt)))
  {
    hide Split, Encode, ParseTime, Print;
    ParsesTime(e.createdAt, rfc3339);
    ParsesTime(e.expiresAt, rfc3339);
    EncodeIsJoin(e);
    SplitIsUnique(Fields(e), BAR, FIELDS);
  }

  /** It parses to the same entry, with its times to the second, exactly when no text field has a bar in it; and
      the text fields alone come back exactly then, too. */
  lemma {:induction false} RoundTripIff(e: Entry, rfc3339: string -> Option<int>)
    requires IsRFC3339(rfc3339) && IsInt64(Unix(e.createdAt)) && IsInt64(Unix(e.expiresAt))
    ensures var r := ParseRefreshEntry(e.tokenID, Encode(e), rfc3339);
      && r.Some?
      && (r.value == e.(createdAt := ToSecond(e.createdAt), expiresAt := ToSecond(e.expiresAt)) <==> BarFree(e))
      && (SameText(r.value, e) <==> BarFree(e))
  {
    hide Split, Encode, ParseTime;
    FirstFieldsAreBarFree(e);
    if BarFree(e) { BarFreeParses(e, rfc3339); }
  }

  // ----- the format, written out -----

  /** The six parts of the text for an entry without bars: its four texts and its two times in whole seconds. */
  lemma EncodedFields(e: Entry)
    requires BarFree(e)
    ensures Split(Encode(e), '|', 6) ==
      [e.userID, e.role, e.deviceInfo, e.ipAddress,
       Print(e.createdAt / 1_000_000_000), Print(e.expiresAt / 1_000_000_000)]
  {
    hide Split, Encode, Print;
    ParsesPrinted(Unix(e.createdAt));
    EncodeIsJoin(e);
    SplitIsUnique(Fields(e), BAR, FIELDS);
  }

  /** What a text is read as: nothing with fewer than five bars, else its first six parts in that order, each time a
      date other than the zero time, or else decimal seconds, or else the epoch. */
  lemma ParsedFields(tokenID: string, data: string, rfc3339: string -> Option<int>)
    ensures
      var r, parts := ParseRefreshEntry(tokenID, data, rfc3339), Split(data, '|', 6);
      && (r.Some? <==> Seps(data, '|') >= 5)
      && (r.Some? ==>
            && |parts| == 6 && r.value.tokenID == tokenID && r.value.userID == parts[0] && r.value.role == parts[1]
            && r.value.deviceInfo == parts[2] && r.value.ipAddress == parts[3]
            && r.value.createdAt == TimeOf(parts[4], rfc3339) && r.value.expiresAt == TimeOf(parts[5], rfc3339))
  {
    hide Split, Seps, ParseInt64;
    SplitShape(data, BAR, FIELDS);
  }

  function TimeOf(s: string, rfc3339: string -> Option<int>): int {
    match rfc3339(s)
    case Some(t) => if t == ZERO_TIME then 1_000_000_000 * ParseInt64(s).GetOr(0) else t
    case None => 1_000_000_000 * ParseInt64(s).GetOr(0)
  }
}
