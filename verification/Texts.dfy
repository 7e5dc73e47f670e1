/**
The text forms load balancers are configured in: "ip@ratio", "host:port", decimal numbers.
These are library functions the original relies on, written out where the round trips of
dispatcher/dispatcher.go:81-152 and gui/automode.go:157-230 need them.
*/
module Texts {
  import opened Links

  // ----- decimal numbers

  function Digit(n: nat): char
    requires n < 10
  {
    ['0', '1', '2', '3', '4', '5', '6', '7', '8', '9'][n]
  }

  function DigitValue(c: char): Option<nat> {
    if '0' <= c <= '9' then Some(c as nat - '0' as nat) else None
  }

  function Digits(n: nat): (s: string)
    ensures s != [] && forall k :: 0 <= k < |s| ==> '0' <= s[k] <= '9'
  {
    if n < 10 then [Digit(n)] else Digits(n / 10) + [Digit(n % 10)]
  }

  function Itoa(n: int): (s: string)
    ensures s != []
  {
    if n < 0 then "-" + Digits(-n) else Digits(n)
  }

  // The value of a non-empty string of digits.
  function ParseDigits(s: string): Option<nat> {
    if s == [] then None
    else
      var m := |s| - 1;
      match DigitValue(s[m])
      case None => None
      case Some(d) =>
        if m == 0 then Some(d)
        else
          match ParseDigits(s[..m])
          case None => None
          case Some(n) => Some(10 * n + d)
  }

  const INT64_LIMIT := 0x8000_0000_0000_0000

  function Atoi(s: string): (r: Option<int>)
    ensures r.Some? ==> -INT64_LIMIT <= r.value < INT64_LIMIT
  {
    if s == [] then None
    else
      var negative := s[0] == '-';
      match ParseDigits(if negative || s[0] == '+' then s[1..] else s)
      case None => None
      case Some(n) =>
        var magnitude: int := n;
        var value := if negative then -magnitude else magnitude;
        if -INT64_LIMIT <= value < INT64_LIMIT then Some(value) else None
  }

  lemma DigitsUnfold(n: nat)
    ensures Digits(n) == if n < 10 then [Digit(n)] else Digits(n / 10) + [Digit(n % 10)]
  {
  }

  lemma ParseOneMore(s: string, c: char, d: nat)
    requires DigitValue(c) == Some(d)
    ensures ParseDigits([c]) == Some(d)
    ensures ParseDigits(s).Some? ==> ParseDigits(s + [c]) == Some(10 * ParseDigits(s).value + d)
  {
    assert (s + [c])[..|s|] == s;
  }

  lemma {:induction false} ParseOfDigits(n: nat)
    ensures ParseDigits(Digits(n)) == Some(n)
  {
    hide Digits, ParseDigits, Digit, DigitValue;
    DigitsUnfold(n);
    DigitBack(n % 10);
    if n < 10 {
      ParseOneMore("", Digit(n), n);
    } else {
      ParseOfDigits(n / 10);
      ParseOneMore(Digits(n / 10), Digit(n % 10), n % 10);
    }
  }

  lemma DigitBack(d: nat)
    requires d < 10
    ensures DigitValue(Digit(d)) == Some(d)
  {
  }

  /** Printing an integer and reading it back gives it again if it fits in 64 bits, and
      nothing otherwise. */
  lemma AtoiOfItoa(n: int)
    ensures Atoi(Itoa(n)) == if -0x8000_0000_0000_0000 <= n < 0x8000_0000_0000_0000 then Some(n) else None
  {
    hide Digits, ParseDigits;
    if n < 0 {
      ParseOfDigits(-n);
      assert Itoa(n)[1..] == Digits(-n);
    } else {
      ParseOfDigits(n);
      assert Itoa(n)[0] == Digits(n)[0];
    }
  }

  lemma {:induction false} OnlyDigitsParse(s: string)
    ensures ParseDigits(s).Some? <==> s != [] && forall k :: 0 <= k < |s| ==> '0' <= s[k] <= '9'
  {
    if |s| > 1 {
      var m := |s| - 1;
      OnlyDigitsParse(s[..m]);
      assert forall k :: 0 <= k < m ==> s[..m][k] == s[k];
      assert s == s[..m] + [s[m]];
    }
  }

  lemma ItoaHasNo(n: int, c: char)
    requires !('0' <= c <= '9') && c != '-'
    ensures c !in Itoa(n)
  {
  }

  // ----- splitting

  // The first position of c, or the length.
  function IndexOf(s: string, c: char): (i: nat)
    ensures i <= |s| && (i < |s| ==> s[i] == c) && forall k :: 0 <= k < i ==> s[k] != c
  {
    if s == [] || s[0] == c then 0 else 1 + IndexOf(s[1..], c)
  }

  // The last position of c, or the length.
  function LastIndexOf(s: string, c: char): (i: nat)
    ensures i <= |s| && (i < |s| ==> s[i] == c) && (forall k :: i < k < |s| ==> s[k] != c) && (i == |s| ==> c !in s)
  {
    if s == [] then 0
    else
      var m := |s| - 1;
      if s[m] == c then m
      else
        var i := LastIndexOf(s[..m], c);
        if i == m then |s| else i
  }

  function Split(s: string, c: char): (parts: seq<string>)
    ensures parts != [] && c !in parts[0]
    decreases |s|
  {
    var i := IndexOf(s, c);
    if i == |s| then [s] else [s[..i]] + Split(s[i + 1..], c)
  }

  function Joined(parts: seq<string>, c: char): string {
    if parts == [] then "" else if |parts| == 1 then parts[0] else parts[0] + [c] + Joined(parts[1..], c)
  }

  lemma JoinUnfolds(parts: seq<string>, c: char)
    requires parts != []
    ensures Joined(parts, c) == if |parts| == 1 then parts[0] else parts[0] + [c] + Joined(parts[1..], c)
  {
  }

  /** Splitting cuts at every separator and loses nothing else. */
  lemma {:induction false} SplitIsExact(s: string, c: char)
    ensures Joined(Split(s, c), c) == s
    ensures forall k :: 0 <= k < |Split(s, c)| ==> c !in Split(s, c)[k]
    decreases |s|
  {
    var i := IndexOf(s, c);
    if i < |s| {
      SplitIsExact(s[i + 1..], c);
      assert Split(s, c)[1..] == Split(s[i + 1..], c);
      assert s == s[..i] + [c] + s[i + 1..];
    }
  }

  // The first part is what comes before the first separator.
  lemma SplitFirst(a: string, rest: string, c: char)
    requires c !in a && (rest == "" || rest[0] == c)
    ensures Split(a + rest, c) == if rest == "" then [a] else [a] + Split(rest[1..], c)
  {
    var s := a + rest;
    assert forall k :: 0 <= k < |a| ==> s[k] == a[k];
    if rest == "" {
      assert s == a;
    } else {
      assert s[|a|] == c;
      assert IndexOf(s, c) == |a|;
      assert s[..|a|] == a && s[|a| + 1..] == rest[1..];
    }
  }

  /** Parts without a separator, joined, split back. */
  lemma {:induction false} SplitOfJoined(parts: seq<string>, c: char)
    requires parts != [] && forall k :: 0 <= k < |parts| ==> c !in parts[k]
    ensures Split(Joined(parts, c), c) == parts
  {
    hide Split;
    if |parts| == 1 {
      SplitFirst(parts[0], "", c);
      assert parts[0] + "" == Joined(parts, c);
    } else {
      var rest := [c] + Joined(parts[1..], c);
      SplitOfJoined(parts[1..], c);
      SplitFirst(parts[0], rest, c);
      assert parts[0] + rest == Joined(parts, c) && rest[1..] == Joined(parts[1..], c);
    }
  }

  // ----- host and port

  function JoinHostPort(host: string, port: string): string {
    if ':' in host then "[" + host + "]:" + port else host + ":" + port
  }

  function SplitHostPort(s: string): Option<(string, string)> {
    var i := LastIndexOf(s, ':');
    if i == |s| then None
    else if s[0] == '[' then
      var end := IndexOf(s, ']');
      if end == |s| || end + 1 != i || '[' in s[1..] || ']' in s[end + 1..] then None
      else Some((s[1..end], s[i + 1..]))
    else if ':' in s[..i] || '[' in s || ']' in s then None
    else Some((s[..i], s[i + 1..]))
  }

  predicate Plain(s: string) {
    '[' !in s && ']' !in s
  }

  /** Joining and splitting are inverse for a host without brackets, IPv6 or not. */
  lemma SplitOfJoin(host: string, port: string)
    requires Plain(host) && Plain(port) && ':' !in port
    ensures SplitHostPort(JoinHostPort(host, port)) == Some((host, port))
  {
    if ':' in host {
      SplitBracketed(host, port);
    } else {
      SplitBare(host, port);
    }
  }

  lemma LastColon(s: string, i: nat)
    requires i < |s| && s[i] == ':' && ':' !in s[i + 1..]
    ensures LastIndexOf(s, ':') == i
  {
    assert forall k :: i < k < |s| ==> s[k] == s[i + 1..][k - (i + 1)];
  }

  lemma SplitBare(host: string, port: string)
    requires Plain(host) && Plain(port) && ':' !in port && ':' !in host
    ensures SplitHostPort(host + ":" + port) == Some((host, port))
  {
    var s, n := host + ":" + port, |host|;
    assert s[..n] == host && s[n] == ':' && s[n + 1..] == port;
    LastColon(s, n);
    assert '[' !in s && ']' !in s;
  }

  lemma SplitBracketed(host: string, port: string)
    requires Plain(host) && Plain(port) && ':' !in port
    ensures SplitHostPort("[" + host + "]:" + port) == Some((host, port))
  {
    var s, n := "[" + host + "]:" + port, |host|;
    assert s[0] == '[' && s[n + 1] == ']' && s[n + 2] == ':';
    assert s[n + 3..] == port && s[1..n + 1] == host;
    LastColon(s, n + 2);
    FirstBracket(s, host, n + 1);
    assert s[1..] == host + ("]:" + port) && s[n + 2..] == ":" + port;
  }

  lemma FirstBracket(s: string, host: string, i: nat)
    requires 1 <= i < |s| && s[0] == '[' && s[i] == ']' && s[1..i] == host && Plain(host)
    ensures IndexOf(s, ']') == i
  {
    assert forall k :: 1 <= k < i ==> s[k] == s[1..i][k - 1];
  }
}
