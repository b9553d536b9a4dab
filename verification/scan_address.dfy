/** `handleScan` (src/screens/SendScreen.tsx:24-28): reading the address
    `tcp://<host>:<port>|<deviceName>` with JavaScript's `replace`, `split`
    and `parseInt(_, 10)`, each modelled with its own edge cases. */
module ScanAddress {
  import opened Options

  const Scheme: string := "tcp://"

  // ---------------------------------------------------- String.prototype.replace

  ghost predicate OccursAt(s: string, pat: string, i: int) {
    0 <= i && i + |pat| <= |s| && s[i..i + |pat|] == pat
  }

  /** The first position at or after `from` where `pat` occurs. */
  function IndexFrom(s: string, pat: string, from: nat): (r: Option<nat>)
    ensures r.Some? ==> from <= r.value && OccursAt(s, pat, r.value)
    ensures r.Some? ==> forall i :: from <= i < r.value ==> !OccursAt(s, pat, i)
    ensures r.None? ==> forall i :: from <= i ==> !OccursAt(s, pat, i)
    decreases |s| - from
  {
    if from + |pat| > |s| then None
    else if s[from..from + |pat|] == pat then Some(from)
    else IndexFrom(s, pat, from + 1)
  }

  /** `i` is the first position where `pat` occurs. */
  ghost predicate FirstAt(s: string, pat: string, i: int) {
    OccursAt(s, pat, i) && forall j :: 0 <= j < i ==> !OccursAt(s, pat, j)
  }

  /** `s.replace(pat, "")` with a string pattern: only the first occurrence
      is removed, wherever it is. */
  function ReplaceFirst(s: string, pat: string): (r: string)
    ensures (forall i :: !OccursAt(s, pat, i)) ==> r == s
    ensures (exists i :: OccursAt(s, pat, i)) ==>
      exists i :: 0 <= i <= |s| - |pat| && FirstAt(s, pat, i) && r == s[..i] + s[i + |pat|..]
  {
    match IndexFrom(s, pat, 0)
    case None => s
    case Some(i) =>
      assert FirstAt(s, pat, i);
      s[..i] + s[i + |pat|..]
  }

  /** The scheme is removed from the front, and only from there: a second
      "tcp://" further on survives. */
  lemma ReplaceFirstStripsScheme(s: string)
    ensures ReplaceFirst(Scheme + s, Scheme) == s
  {
    assert (Scheme + s)[0..|Scheme|] == Scheme;
    assert (Scheme + s)[|Scheme|..] == s;
  }

  // ------------------------------------------------------ String.prototype.split

  /** `s.split(c)` with a one-character separator: the pieces between
      separators, always at least one. */
  function Split(s: string, c: char): (r: seq<string>)
    ensures |r| >= 1
    decreases |s|
  {
    if |s| == 0 then [""]
    else
      var rest := Split(s[1..], c);
      if s[0] == c then [""] + rest
      else [[s[0]] + rest[0]] + rest[1..]
  }

  /** `parts.join(c)`. */
  function Join(parts: seq<string>, c: char): string
    requires |parts| >= 1
    decreases |parts|
  {
    if |parts| == 1 then parts[0] else parts[0] + [c] + Join(parts[1..], c)
  }

  ghost predicate FreeOf(parts: seq<string>, c: char) {
    forall i :: 0 <= i < |parts| ==> c !in parts[i]
  }

  /** No piece of a split contains the separator, and joining the pieces
      again gives back the text. */
  lemma {:induction false} SplitJoin(s: string, c: char)
    ensures FreeOf(Split(s, c), c)
    ensures Join(Split(s, c), c) == s
    decreases |s|
  {
    if |s| > 0 {
      SplitJoin(s[1..], c);
      var rest := Split(s[1..], c);
      var r := Split(s, c);
      if s[0] == c {
        assert r[1..] == rest;
        assert s == [c] + s[1..];
      } else {
        assert r[1..] == rest[1..];
        if |rest| == 1 {
          assert s == [s[0]] + rest[0];
        } else {
          assert Join(rest, c) == rest[0] + [c] + Join(rest[1..], c);
          assert s == [s[0]] + s[1..];
        }
        forall i | 0 <= i < |r| ensures c !in r[i] {
          if i > 0 { assert r[i] == rest[i]; }
        }
      }
    }
  }

  /** Splitting pieces that are free of the separator after joining them
      gives the pieces back. */
  lemma {:induction false} JoinSplit(parts: seq<string>, c: char)
    requires |parts| >= 1 && FreeOf(parts, c)
    ensures Split(Join(parts, c), c) == parts
    decreases |parts|, |parts[0]|
  {
    if |parts[0]| > 0 {
      var head := parts[0];
      var shorter := [head[1..]] + parts[1..];
      assert FreeOf(shorter, c) by {
        forall i | 0 <= i < |shorter| ensures c !in shorter[i] {
          if i > 0 { assert shorter[i] == parts[i]; }
        }
      }
      JoinSplit(shorter, c);
      assert shorter[1..] == parts[1..];
      assert Join(parts, c) == [head[0]] + Join(shorter, c);
      assert Join(parts, c)[1..] == Join(shorter, c);
      assert [head[0]] + head[1..] == head;
    } else if |parts| > 1 {
      assert FreeOf(parts[1..], c) by {
        forall i | 0 <= i < |parts| - 1 ensures c !in parts[1..][i] {
          assert parts[1..][i] == parts[i + 1];
        }
      }
      JoinSplit(parts[1..], c);
      assert Join(parts, c) == [c] + Join(parts[1..], c);
      assert Join(parts, c)[1..] == Join(parts[1..], c);
    }
  }

  /** The i-th element of a destructured array: `undefined` past its end. */
  function Part(parts: seq<string>, i: nat): (r: Option<string>)
    ensures r.Some? <==> i < |parts|
    ensures r.Some? ==> r.value == parts[i]
  {
    if i < |parts| then Some(parts[i]) else None
  }

  // ----------------------------------------------------------- parseInt(_, 10)

  /** The characters `parseInt` skips before the number (the whitespace and
      line terminators of ECMAScript). */
  predicate IsSpace(ch: char) {
    || ch == '\t' || ch == '\n' || ch == '\U{000B}' || ch == '\U{000C}' || ch == '\r'
    || ch == ' ' || ch == '\U{00A0}' || ch == '\U{1680}'
    || ('\U{2000}' <= ch <= '\U{200A}')
    || ch == '\U{2028}' || ch == '\U{2029}' || ch == '\U{202F}' || ch == '\U{205F}'
    || ch == '\U{3000}' || ch == '\U{FEFF}'
  }

  predicate IsDigit(ch: char) {
    '0' <= ch <= '9'
  }

  ghost predicate AllDigits(s: string) {
    forall i :: 0 <= i < |s| ==> IsDigit(s[i])
  }

  /** `parseInt`'s skipping of leading whitespace. */
  function TrimStart(s: string): (r: string)
    ensures |r| <= |s|
    ensures |r| > 0 ==> !IsSpace(r[0])
    decreases |s|
  {
    if |s| > 0 && IsSpace(s[0]) then TrimStart(s[1..]) else s
  }

  /** Exactly the whitespace at the front is dropped: what remains is a
      suffix of the text, and everything before it is whitespace. */
  lemma {:induction false} TrimStartDropsSpaces(s: string)
    ensures var r := TrimStart(s);
      && r == s[|s| - |r|..]
      && forall i :: 0 <= i < |s| - |r| ==> IsSpace(s[i])
    decreases |s|
  {
    if |s| > 0 && IsSpace(s[0]) {
      TrimStartDropsSpaces(s[1..]);
      var r := TrimStart(s);
      assert r == TrimStart(s[1..]);
      assert s[1..][|s| - 1 - |r|..] == s[|s| - |r|..];
      forall i | 0 <= i < |s| - |r| ensures IsSpace(s[i]) {
        if i > 0 { assert s[i] == s[1..][i - 1]; }
      }
    }
  }

  /** The longest run of decimal digits at the front of `s`. */
  function LeadingDigits(s: string): (r: string)
    ensures |r| <= |s| && r == s[..|r|] && AllDigits(r)
    ensures |r| < |s| ==> !IsDigit(s[|r|])
    decreases |s|
  {
    if |s| > 0 && IsDigit(s[0]) then [s[0]] + LeadingDigits(s[1..]) else []
  }

  /** The value of a string of decimal digits. */
  function DecimalValue(ds: string): nat
    requires AllDigits(ds)
    decreases |ds|
  {
    if |ds| == 0 then 0
    else 10 * DecimalValue(ds[..|ds| - 1]) + ((ds[|ds| - 1] as int) - ('0' as int)) as nat
  }

  /** `parseInt(text, 10)`: skip leading whitespace, read an optional sign and
      the digits that follow; no digits (or no text at all) gives NaN, here
      `None`. Anything after the digits is ignored. */
  function ParseInt(text: Option<string>): (r: Option<int>)
    ensures text.None? ==> r.None?
  {
    match text
    case None => None
    case Some(t) =>
      var u := TrimStart(t);
      var negative := |u| > 0 && u[0] == '-';
      var body := if |u| > 0 && (u[0] == '-' || u[0] == '+') then u[1..] else u;
      var digits := LeadingDigits(body);
      if |digits| == 0 then None
      else
        var magnitude: int := DecimalValue(digits);
        Some(if negative then -magnitude else magnitude)
  }

  /** `parseInt` gives a number only when the text holds a digit: whitespace
      only, a sign only, or letters give NaN. */
  lemma ParseIntNeedsDigit(t: string)
    ensures ParseInt(Some(t)).Some? ==> exists i :: 0 <= i < |t| && IsDigit(t[i])
  {
    var u := TrimStart(t);
    TrimStartDropsSpaces(t);
    var off := |t| - |u|;
    var body := if |u| > 0 && (u[0] == '-' || u[0] == '+') then u[1..] else u;
    var digits := LeadingDigits(body);
    if |digits| > 0 {
      var at := if body == u then off else off + 1;
      assert IsDigit(body[0]);
      assert t[at] == body[0];
    }
  }

  /** A non-empty run of digits parses to its decimal value, and a text that
      starts with no digit, sign or space parses to NaN. */
  lemma ParseIntDigits(p: string)
    ensures |p| > 0 && AllDigits(p) ==> ParseInt(Some(p)) == Some(DecimalValue(p))
    ensures |p| > 0 && !IsDigit(p[0]) && !IsSpace(p[0]) && p[0] != '-' && p[0] != '+' ==> ParseInt(Some(p)).None?
  {
    if |p| > 0 && !IsSpace(p[0]) {
      assert TrimStart(p) == p;
    }
    if |p| > 0 && AllDigits(p) {
      assert IsDigit(p[0]);
      var ds := LeadingDigits(p);
      assert |ds| == |p|;
      assert ds == p;
    }
  }

  // -------------------------------------------------------------- handleScan

  /** The arguments `handleScan` passes to `connectToServer`; `None` stands
      for a NaN port or an undefined device name. */
  datatype ConnectCall = ConnectCall(host: string, port: Option<int>, deviceName: Option<string>)

  /** `data.replace('tcp://', '').split('|')` destructured into
      `[connectionData, deviceName]`. */
  function SplitAddress(data: string): (string, Option<string>) {
    var parts := Split(ReplaceFirst(data, Scheme), '|');
    (parts[0], Part(parts, 1))
  }

  /** The connection data is the text before the first '|' of the stripped
      address; the device name is undefined exactly when there is no '|',
      and otherwise is the piece up to the next '|' (anything after a
      second '|' is lost). */
  lemma SplitAddressParts(data: string)
    ensures var (connectionData, deviceName) := SplitAddress(data);
      && connectionData <= ReplaceFirst(data, Scheme) && '|' !in connectionData
      && (deviceName.None? <==> '|' !in ReplaceFirst(data, Scheme))
      && (deviceName.Some? ==> '|' !in deviceName.value)
  {
    SplitPieces(ReplaceFirst(data, Scheme), '|');
  }

  /** `handleScan`: the host is the text before the first ':' of the
      stripped address, the port is NaN when there is no ':', and the
      device name is undefined when there is no '|'. */
  function HandleScan(data: string): (r: ConnectCall)
    ensures r.host <= ReplaceFirst(data, Scheme) && ':' !in r.host && '|' !in r.host
    ensures ':' !in ReplaceFirst(data, Scheme) ==> r.port.None?
    ensures '|' !in ReplaceFirst(data, Scheme) <==> r.deviceName.None?
  {
    var (connectionData, deviceName) := SplitAddress(data);
    var hostPort := Split(connectionData, ':');
    SplitAddressParts(data);
    SplitPieces(connectionData, ':');
    assert ':' !in ReplaceFirst(data, Scheme) ==> ':' !in connectionData by {
      if ':' in connectionData {
        var i :| 0 <= i < |connectionData| && connectionData[i] == ':';
        assert ReplaceFirst(data, Scheme)[i] == ':';
      }
    }
    ConnectCall(hostPort[0], ParseInt(Part(hostPort, 1)), deviceName)
  }

  /** The first piece of a split leads the text, and there is more than
      one piece exactly when the separator occurs. */
  lemma SplitPieces(s: string, c: char)
    ensures Split(s, c)[0] <= s
    ensures |Split(s, c)| == 1 <==> c !in s
    ensures FreeOf(Split(s, c), c)
  {
    var parts := Split(s, c);
    SplitJoin(s, c);
    if |parts| > 1 {
      assert s == parts[0] + [c] + Join(parts[1..], c);
      assert s[|parts[0]|] == c;
    } else {
      assert s == parts[0];
    }
    if c !in s {
      assert FreeOf([s], c);
      JoinSplit([s], c);
    }
  }

  /** Two pieces free of the separator, joined by it, split back apart. */
  lemma SplitPair(a: string, b: string, c: char)
    requires c !in a && c !in b
    ensures Split(a + [c] + b, c) == [a, b]
  {
    var parts := [a, b];
    assert FreeOf(parts, c);
    assert Join(parts, c) == a + [c] + b;
    JoinSplit(parts, c);
  }

  lemma DigitsFreeOf(p: string, c: char)
    requires AllDigits(p) && !IsDigit(c)
    ensures c !in p
  {
  }

  lemma ScanFromParts(data: string, host: string, port: string, name: string)
    requires SplitAddress(data) == (host + [':'] + port, Some(name))
    requires Split(host + [':'] + port, ':') == [host, port]
    ensures HandleScan(data) == ConnectCall(host, ParseInt(Some(port)), Some(name))
  {
  }

  /** The address text a receiving device advertises. */
  function Advertised(host: string, port: string, name: string): string {
    Scheme + host + ":" + port + "|" + name
  }

  lemma StripAdvertised(host: string, port: string, name: string)
    ensures ReplaceFirst(Advertised(host, port, name), Scheme) == host + [':'] + port + ['|'] + name
  {
    var rest := host + [':'] + port + ['|'] + name;
    assert Advertised(host, port, name) == Scheme + rest;
    ReplaceFirstStripsScheme(rest);
  }

  lemma AddressSplit(host: string, port: string, name: string)
    requires ':' !in host && '|' !in host && '|' !in name && AllDigits(port)
    ensures SplitAddress(Advertised(host, port, name)) == (host + [':'] + port, Some(name))
  {
    var hostPort := host + [':'] + port;
    StripAdvertised(host, port, name);
    DigitsFreeOf(port, '|');
    assert '|' !in hostPort;
    SplitPair(hostPort, name, '|');
  }

  /** Parsing round trip: an address built from a host without ':' or '|', a
      port written in decimal digits and a device name without '|' parses
      back to those three values. */
  lemma ScanRoundTrip(host: string, port: string, name: string)
    requires ':' !in host && '|' !in host && '|' !in name
    requires |port| > 0 && AllDigits(port)
    ensures HandleScan(Advertised(host, port, name))
         == ConnectCall(host, Some(DecimalValue(port)), Some(name))
  {
    AddressSplit(host, port, name);
    DigitsFreeOf(port, ':');
    SplitPair(host, port, ':');
    ScanFromParts(Advertised(host, port, name), host, port, name);
    ParseIntDigits(port);
  }

  /** The scheme is optional: a text with no "tcp://" in it parses the same
      with or without the prefix. */
  lemma SchemeOptional(s: string)
    requires forall i :: !OccursAt(s, Scheme, i)
    ensures HandleScan(Scheme + s) == HandleScan(s)
  {
    ReplaceFirstStripsScheme(s);
  }
}
