/** isValidIpV4: splits at dots and judges octet by octet, with stoi doing the reading. */
module Ipv4 {
  import opened Wrappers
  import opened Bytes
  import opened Decimal

  /** stoi leaves by exception on text without a number and on numbers beyond an int. */
  datatype Verdict = Valid | Invalid | InvalidArgument | OutOfRange

  // ---------- stoi ----------

  predicate IsSpace(c: char) {
    c == ' ' || '\t' <= c <= '\r'
  }

  predicate IsAlpha(c: char) {
    'a' <= c <= 'z' || 'A' <= c <= 'Z'
  }

  function SkipSpaces(s: string): string {
    if |s| > 0 && IsSpace(s[0]) then SkipSpaces(s[1..]) else s
  }

  function LeadingDigits(s: string): (n: nat)
    ensures n <= |s| && AllDigits(s[..n])
    ensures n < |s| ==> !IsDigit(s[n])
  {
    if |s| > 0 && IsDigit(s[0]) then
      var n := LeadingDigits(s[1..]);
      assert forall i :: 1 <= i <= n ==> s[i] == s[1..][i - 1];
      1 + n
    else 0
  }

  /** Spaces, a sign, and as many digits as follow; the rest of the text is ignored. */
  function Stoi(s: string): Result<int, Verdict> {
    var text := SkipSpaces(s);
    var signed := |text| > 0 && (text[0] == '-' || text[0] == '+');
    var digits := if signed then text[1..] else text;
    var n := LeadingDigits(digits);
    if n == 0 then Failure(InvalidArgument)
    else
      var magnitude := DigitsValue(digits[..n]);
      var value := if signed && text[0] == '-' then 0 - magnitude else magnitude;
      if -0x8000_0000 <= value < 0x8000_0000 then Success(value) else Failure(OutOfRange)
  }

  /** Where a number stands in a text: spaces up to a, a sign or none up to b, digits up to c. */
  ghost predicate NumberAt(s: string, a: int, b: int, c: int) {
    && 0 <= a <= b < c <= |s|
    && (forall i :: 0 <= i < a ==> IsSpace(s[i]))
    && (b == a || (b == a + 1 && (s[a] == '-' || s[a] == '+')))
    && AllDigits(s[b..c])
    && (c < |s| ==> !IsDigit(s[c]))
  }

  function NumberValue(s: string, a: int, b: int, c: int): int
    requires NumberAt(s, a, b, c)
  {
    if b > a && s[a] == '-' then 0 - DigitsValue(s[b..c]) else DigitsValue(s[b..c])
  }

  /** The text begins with a number, of this value; anything may follow. */
  ghost predicate Denotes(s: string, value: int) {
    exists a, b, c :: NumberAt(s, a, b, c) && value == NumberValue(s, a, b, c)
  }

  predicate FitsInt(value: int) {
    -0x8000_0000 <= value < 0x8000_0000
  }

  lemma {:induction false} SpacesSkipped(s: string, a: nat)
    requires a <= |s| && (forall i :: 0 <= i < a ==> IsSpace(s[i])) && (a < |s| ==> !IsSpace(s[a]))
    ensures SkipSpaces(s) == s[a..]
  {
    if a > 0 {
      SpacesSkipped(s[1..], a - 1);
      assert s[1..][a - 1..] == s[a..];
    } else {
      assert s[0..] == s;
    }
  }

  lemma {:induction false} SpacesBefore(s: string) returns (a: nat)
    ensures a <= |s| && (forall i :: 0 <= i < a ==> IsSpace(s[i])) && (a < |s| ==> !IsSpace(s[a]))
  {
    a := 0;
    if |s| > 0 && IsSpace(s[0]) {
      var rest := SpacesBefore(s[1..]);
      a := rest + 1;
      assert forall i :: 1 <= i < a ==> s[i] == s[1..][i - 1];
    }
  }

  lemma DigitsCounted(s: string, n: nat)
    requires n <= |s| && AllDigits(s[..n]) && (n < |s| ==> !IsDigit(s[n]))
    ensures LeadingDigits(s) == n
  {
    assert forall i :: 0 <= i < n ==> s[..n][i] == s[i];
    assert forall i :: 0 <= i < LeadingDigits(s) ==> s[..LeadingDigits(s)][i] == s[i];
  }

  /** What stoi makes of a text in which a number stands at the front. */
  lemma StoiAt(s: string, a: int, b: int, c: int)
    requires NumberAt(s, a, b, c)
    ensures var value := NumberValue(s, a, b, c);
      Stoi(s) == if FitsInt(value) then Success(value) else Failure(OutOfRange)
  {
    assert s[b..c][0] == s[b] && IsDigit(s[b]);
    SpacesSkipped(s, a);
    var text := s[a..];
    var digits := text[b - a..];
    assert digits == s[b..] && digits[..c - b] == s[b..c];
    DigitsCounted(digits, c - b);
    assert b == a ==> text[0..] == text;
  }

  /** And when there is no number there: it throws. */
  lemma NoNumber(s: string)
    requires Stoi(s) != Failure(InvalidArgument)
    ensures exists a, b, c :: NumberAt(s, a, b, c)
  {
    var a := SpacesBefore(s);
    SpacesSkipped(s, a);
    var text := s[a..];
    var b := if |text| > 0 && (text[0] == '-' || text[0] == '+') then a + 1 else a;
    var n := LeadingDigits(s[b..]);
    assert text[b - a..] == s[b..];
    assert text[0..] == text;
    assert s[b..][..n] == s[b..b + n];
    assert n < |s[b..]| ==> s[b..][n] == s[b + n];
    assert NumberAt(s, a, b, b + n);
  }

  /** stoi in one sentence per outcome. */
  lemma StoiReads(s: string)
    ensures forall v :: Stoi(s) == Success(v) <==> Denotes(s, v) && FitsInt(v)
    ensures Stoi(s) == Failure(OutOfRange) <==> exists v :: Denotes(s, v) && !FitsInt(v)
    ensures Stoi(s) == Failure(InvalidArgument) <==> forall v :: !Denotes(s, v)
  {
    hide Stoi, NumberAt, NumberValue, FitsInt;
    if Stoi(s) != Failure(InvalidArgument) {
      NoNumber(s);
      var a, b, c :| NumberAt(s, a, b, c);
      StoiAt(s, a, b, c);
      assert Denotes(s, NumberValue(s, a, b, c));
    }
    forall v | Denotes(s, v)
      ensures Stoi(s) == if FitsInt(v) then Success(v) else Failure(OutOfRange)
    {
      var a, b, c :| NumberAt(s, a, b, c) && v == NumberValue(s, a, b, c);
      StoiAt(s, a, b, c);
    }
  }

  // ---------- specification ----------

  /** The pieces between dots; getline yields them one by one. */
  function Split(s: string): (ps: seq<string>)
    ensures |ps| > 0
  {
    if |s| == 0 then [""]
    else
      var rest := Split(s[1..]);
      if s[0] == '.' then [""] + rest else [[s[0]] + rest[0]] + rest[1..]
  }

  /** What one octet leads to: Valid lets the loop go on. */
  function Judge(octet: string): Verdict {
    if |octet| > 1 && octet[0] == '0' then Invalid
    else if exists i :: 0 <= i < |octet| && IsAlpha(octet[i]) then Invalid
    else match Stoi(octet)
      case Failure(thrown) => thrown
      case Success(value) => if value > 255 then Invalid else Valid
  }

  /** No letters, and no zero in front of anything. */
  ghost predicate Plain(octet: string) {
    && (|octet| > 1 ==> octet[0] != '0')
    && forall i :: 0 <= i < |octet| ==> !IsAlpha(octet[i])
  }

  /** A piece the loop goes on after: it need not be a number, only begin with one up to 255. */
  ghost predicate Passable(octet: string) {
    Plain(octet) && exists v :: Denotes(octet, v) && FitsInt(v) && v <= 255
  }

  /** Where a piece makes stoi throw. */
  ghost predicate Throws(octet: string, thrown: Verdict) {
    && Plain(octet)
    && (thrown == InvalidArgument ==> forall v :: !Denotes(octet, v))
    && (thrown == OutOfRange ==> exists v :: Denotes(octet, v) && !FitsInt(v))
    && (thrown == InvalidArgument || thrown == OutOfRange)
  }

  lemma JudgeMeaning(octet: string)
    ensures Judge(octet) == Valid <==> Passable(octet)
    ensures forall e :: (e == InvalidArgument || e == OutOfRange) ==> (Judge(octet) == e <==> Throws(octet, e))
  {
    hide Stoi, Denotes, FitsInt;
    StoiReads(octet);
    if Plain(octet) {
      match Stoi(octet)
      case Success(value) => StoiIsSingle(octet, value);
      case Failure(_) =>
    }
  }

  lemma StoiIsSingle(octet: string, value: int)
    requires Stoi(octet) == Success(value)
    ensures Denotes(octet, value) && FitsInt(value)
    ensures forall v :: Denotes(octet, v) ==> v == value
  {
    hide Stoi, Denotes;
    StoiReads(octet);
    forall v | Denotes(octet, v) ensures v == value {
      assert Stoi(octet) == if FitsInt(v) then Success(v) else Failure(OutOfRange);
    }
  }

  /** The first octet that does not pass decides; then there must be four. */
  function JudgeAll(octets: seq<string>, count: nat): Verdict {
    if |octets| == 0 then (if count == 4 then Valid else Invalid)
    else if Judge(octets[0]) != Valid then Judge(octets[0])
    else JudgeAll(octets[1..], count + 1)
  }

  function VerdictOn(s: string): Verdict {
    if |s| < 7 then Invalid else JudgeAll(Split(s), 0)
  }

  /** The loop body's tests: what they let pass, and on what they throw. */
  method JudgeOctet(octet: string) returns (v: Verdict)
    ensures v == Judge(octet)
    ensures v == Valid <==> Passable(octet)
    ensures v == InvalidArgument <==> Throws(octet, InvalidArgument)
    ensures v == OutOfRange <==> Throws(octet, OutOfRange)
  {
    hide Stoi, Passable, Throws;
    JudgeMeaning(octet);
    if |octet| > 1 {
      if octet[0] == '0' {
        return Invalid;
      }
    }
    for index := 0 to |octet|
      invariant forall i :: 0 <= i < index ==> !IsAlpha(octet[i])
    {
      if IsAlpha(octet[index]) {
        return Invalid;
      }
    }
    match Stoi(octet) {
      case Failure(thrown) => return thrown;
      case Success(value) =>
        if value > 255 {
          return Invalid;
        }
    }
    return Valid;
  }

  method IsValidIpV4(ipString: string) returns (v: Verdict)
    ensures v == VerdictOn(ipString)
  {
    hide Judge, Split, JudgeAll;
    if |ipString| < 7 {
      return Invalid;
    }
    var count, pos, good := 0, 0, true;
    assert ipString[0..] == ipString;
    while good
      invariant pos <= |ipString|
      invariant VerdictOn(ipString) == JudgeAll(if good then Split(ipString[pos..]) else [], count)
      decreases good, |ipString| - pos
    {
      var end := pos;
      while end < |ipString| && ipString[end] != '.'
        invariant pos <= end <= |ipString|
        invariant forall i :: pos <= i < end ==> ipString[i] != '.'
      {
        end := end + 1;
      }
      var octet := ipString[pos..end];
      NextPiece(ipString, pos, end, count);
      if end == |ipString| {
        good := false; // end of file
      } else {
        pos := end + 1;
      }
      var verdict := JudgeOctet(octet);
      if verdict != Valid {
        return verdict;
      }
      count := count + 1;
    }
    v := if count != 4 then Invalid else Valid;
    JudgeNone(count);
  }

  lemma JudgeNone(count: nat)
    ensures JudgeAll([], count) == if count == 4 then Valid else Invalid
  {
  }

  /** One turn of the loop: the next piece is judged, then the rest. */
  lemma NextPiece(s: string, pos: nat, end: nat, count: nat)
    requires pos <= end <= |s|
    requires forall i :: pos <= i < end ==> s[i] != '.'
    requires end < |s| ==> s[end] == '.'
    ensures var rest := if end == |s| then [] else Split(s[end + 1..]);
      JudgeAll(Split(s[pos..]), count)
      == if Judge(s[pos..end]) != Valid then Judge(s[pos..end]) else JudgeAll(rest, count + 1)
  {
    hide Judge;
    SplitOff(s[pos..], end - pos);
    assert s[pos..][..end - pos] == s[pos..end];
    var pieces := Split(s[pos..]);
    if end < |s| {
      assert s[pos..][end - pos + 1..] == s[end + 1..];
      assert pieces[1..] == Split(s[end + 1..]);
    } else {
      assert s[pos..] == s[pos..end];
      assert pieces[0] == s[pos..end] && pieces[1..] == [];
    }
  }

  /** What getline takes off the front. */
  lemma {:induction false} SplitOff(s: string, n: nat)
    requires n <= |s| && (forall i :: 0 <= i < n ==> s[i] != '.') && (n < |s| ==> s[n] == '.')
    ensures Split(s) == if n == |s| then [s] else [s[..n]] + Split(s[n + 1..])
  {
    if n > 0 {
      SplitOff(s[1..], n - 1);
      assert s == [s[0]] + s[1..];
      if n < |s| {
        assert s[..n] == [s[0]] + s[1..][..n - 1];
        assert s[1..][n..] == s[n + 1..];
      }
    } else if n < |s| {
      assert s[..0] == "";
    }
  }

  // ---------- canonical addresses ----------

  function Join(ps: seq<string>): string
    requires |ps| > 0
  {
    if |ps| == 1 then ps[0] else ps[0] + "." + Join(ps[1..])
  }

  function Prints(a: nat, b: nat, c: nat, d: nat): (ps: seq<string>) {
    [PrintNat(a), PrintNat(b), PrintNat(c), PrintNat(d)]
  }

  ghost predicate Canonical(s: string) {
    exists a, b, c, d :: 0 <= a < 256 && 0 <= b < 256 && 0 <= c < 256 && 0 <= d < 256 && s == Join(Prints(a, b, c, d))
  }

  ghost predicate DigitsAndDots(s: string) {
    forall i :: 0 <= i < |s| ==> IsDigit(s[i]) || s[i] == '.'
  }

  lemma StoiOfDigits(s: string)
    requires |s| > 0 && AllDigits(s)
    ensures Stoi(s) == if FitsInt(DigitsValue(s)) then Success(DigitsValue(s)) else Failure(OutOfRange)
  {
    assert s[0..|s|] == s;
    StoiAt(s, 0, 0, |s|);
  }

  ghost predicate IsOctet(piece: string) {
    exists n :: 0 <= n < 256 && piece == PrintNat(n)
  }

  /** On digits, an octet passes exactly when it is the print of a value up to 255. */
  lemma JudgeDigits(octet: string)
    requires AllDigits(octet)
    ensures Judge(octet) == Valid <==> IsOctet(octet)
  {
    if Judge(octet) == Valid {
      assert |octet| > 0 by { assert |octet| == 0 ==> Stoi(octet) == Failure(InvalidArgument); }
      StoiOfDigits(octet);
      CanonicalDigits(octet);
    }
    forall n: nat | n < 256 && octet == PrintNat(n) ensures Judge(octet) == Valid {
      PrintedValue(n);
      StoiOfDigits(octet);
    }
  }

  lemma {:induction false} PiecesAreDigits(s: string)
    requires DigitsAndDots(s)
    ensures forall i :: 0 <= i < |Split(s)| ==> AllDigits(Split(s)[i])
  {
    if |s| > 0 {
      PiecesAreDigits(s[1..]);
    }
  }

  lemma {:induction false} JoinOfSplit(s: string)
    ensures Join(Split(s)) == s
  {
    if |s| > 0 {
      var rest := Split(s[1..]);
      JoinOfSplit(s[1..]);
      assert s == [s[0]] + s[1..];
      if s[0] == '.' {
        assert Split(s)[1..] == rest;
        assert "" + "." + Join(rest) == ['.'] + Join(rest);
      } else {
        JoinLonger(s[0], rest);
      }
    }
  }

  lemma JoinCons(head: string, tail: seq<string>)
    ensures Join([head] + tail) == if tail == [] then head else head + ("." + Join(tail))
  {
    assert ([head] + tail)[1..] == tail;
    if tail != [] {
      assert head + "." + Join(tail) == head + ("." + Join(tail));
    }
  }

  lemma JoinLonger(c: char, ps: seq<string>)
    requires |ps| > 0
    ensures Join([[c] + ps[0]] + ps[1..]) == [c] + Join(ps)
  {
    hide Join;
    var tail := ps[1..];
    assert ps == [ps[0]] + tail;
    JoinCons(ps[0], tail);
    JoinCons([c] + ps[0], tail);
    Associative([c], ps[0], "." + if tail == [] then "" else Join(tail));
  }

  ghost predicate Dotless(ps: seq<string>) {
    forall i :: 0 <= i < |ps| ==> '.' !in ps[i]
  }

  lemma {:induction false} SplitOfJoin(ps: seq<string>)
    requires |ps| > 0 && Dotless(ps)
    ensures Split(Join(ps)) == ps
  {
    hide Join, Split;
    var head, tail := ps[0], ps[1..];
    assert ps == [head] + tail;
    JoinCons(head, tail);
    if tail == [] {
      SplitOff(head, |head|);
    } else {
      SplitOfJoin(tail);
      SplitHead(head, Join(tail));
    }
  }

  lemma SplitHead(head: string, tail: string)
    requires '.' !in head
    ensures Split(head + ("." + tail)) == [head] + Split(tail)
  {
    hide Split;
    var s := head + ("." + tail);
    SplitOff(s, |head|);
    assert s[..|head|] == head && s[|head| + 1..] == tail;
  }

  lemma {:induction false} JoinLength(ps: seq<string>)
    requires |ps| > 0 && forall i :: 0 <= i < |ps| ==> |ps[i]| > 0
    ensures |Join(ps)| >= 2 * |ps| - 1
  {
    if |ps| > 1 {
      JoinLength(ps[1..]);
    }
  }

  lemma JudgeFour(octets: seq<string>)
    ensures JudgeAll(octets, 0) == Valid <==>
      |octets| == 4 && forall i :: 0 <= i < 4 ==> Judge(octets[i]) == Valid
  {
    JudgeMany(octets, 0);
  }

  lemma {:induction false} JudgeMany(octets: seq<string>, count: nat)
    ensures JudgeAll(octets, count) == Valid <==>
      |octets| + count == 4 && forall i :: 0 <= i < |octets| ==> Judge(octets[i]) == Valid
  {
    if |octets| > 0 {
      JudgeMany(octets[1..], count + 1);
      assert forall i :: 1 <= i < |octets| ==> octets[i] == octets[1..][i - 1];
    }
  }

  ghost predicate Passes(octet: string) {
    |octet| > 0 && '.' !in octet && Judge(octet) == Valid
  }

  /** Four octets that pass, without dots in them, make an accepted string. */
  lemma FourPass(ps: seq<string>)
    requires |ps| == 4 && Passes(ps[0]) && Passes(ps[1]) && Passes(ps[2]) && Passes(ps[3])
    ensures VerdictOn(Join(ps)) == Valid
  {
    hide Judge;
    SplitOfJoin(ps);
    JoinLength(ps);
    JudgeFour(ps);
  }

  lemma PrintPasses(n: nat)
    requires n < 256
    ensures Passes(PrintNat(n))
  {
    hide Judge;
    JudgeDigits(PrintNat(n));
  }

  lemma AcceptedIsCanonical(s: string)
    requires VerdictOn(s) == Valid && DigitsAndDots(s)
    ensures Canonical(s)
  {
    hide Judge;
    var ps := Split(s);
    JudgeFour(ps);
    PiecesAreDigits(s);
    JudgeDigits(ps[0]);
    JudgeDigits(ps[1]);
    JudgeDigits(ps[2]);
    JudgeDigits(ps[3]);
    var a :| 0 <= a < 256 && ps[0] == PrintNat(a);
    var b :| 0 <= b < 256 && ps[1] == PrintNat(b);
    var c :| 0 <= c < 256 && ps[2] == PrintNat(c);
    var d :| 0 <= d < 256 && ps[3] == PrintNat(d);
    JoinOfSplit(s);
    assert ps == Prints(a, b, c, d);
  }

  lemma {:induction false} JoinOfDigits(ps: seq<string>)
    requires |ps| > 0 && forall i :: 0 <= i < |ps| ==> AllDigits(ps[i])
    ensures DigitsAndDots(Join(ps))
  {
    if |ps| > 1 {
      JoinOfDigits(ps[1..]);
    }
  }

  lemma CanonicalIsAccepted(a: nat, b: nat, c: nat, d: nat)
    requires a < 256 && b < 256 && c < 256 && d < 256
    ensures VerdictOn(Join(Prints(a, b, c, d))) == Valid && DigitsAndDots(Join(Prints(a, b, c, d)))
  {
    hide Passes, Judge, VerdictOn, PrintNat, Join;
    PrintPasses(a);
    PrintPasses(b);
    PrintPasses(c);
    PrintPasses(d);
    FourPass(Prints(a, b, c, d));
    JoinOfDigits(Prints(a, b, c, d));
  }

  /**
   * For every string: it is the canonical print of four values in 0..255 exactly when it is
   * accepted and made of digits and dots.
   */
  lemma RecogniserExact(s: string)
    ensures Canonical(s) <==> VerdictOn(s) == Valid && DigitsAndDots(s)
  {
    hide VerdictOn, DigitsAndDots;
    if VerdictOn(s) == Valid && DigitsAndDots(s) {
      AcceptedIsCanonical(s);
    }
    if Canonical(s) {
      var a, b, c, d :| 0 <= a < 256 && 0 <= b < 256 && 0 <= c < 256 && 0 <= d < 256 && s == Join(Prints(a, b, c, d));
      CanonicalIsAccepted(a, b, c, d);
    }
  }

  /** Any text: what is accepted is four pieces, each beginning with a number up to 255. */
  lemma AcceptedExactly(s: string)
    ensures VerdictOn(s) == Valid <==>
      |s| >= 7 && |Split(s)| == 4 && forall i :: 0 <= i < 4 ==> Passable(Split(s)[i])
  {
    hide Judge, Split, Passable;
    JudgeFour(Split(s));
    forall i | 0 <= i < |Split(s)| ensures Judge(Split(s)[i]) == Valid <==> Passable(Split(s)[i]) {
      JudgeMeaning(Split(s)[i]);
    }
  }

  // ---------- exceptions ----------

  /** The piece that ends the loop by exception: all before it pass. */
  ghost predicate StopsAt(octets: seq<string>, k: int, thrown: Verdict) {
    && 0 <= k < |octets|
    && (forall i :: 0 <= i < k ==> Passable(octets[i]))
    && Throws(octets[k], thrown)
  }

  ghost predicate Stops(octets: seq<string>, thrown: Verdict) {
    exists k :: StopsAt(octets, k, thrown)
  }

  lemma {:induction false} JudgeAllStops(octets: seq<string>, count: nat, thrown: Verdict)
    requires thrown == InvalidArgument || thrown == OutOfRange
    ensures JudgeAll(octets, count) == thrown <==> Stops(octets, thrown)
  {
    hide Judge, Passable, Throws;
    if |octets| > 0 {
      JudgeMeaning(octets[0]);
      var rest := octets[1..];
      if Judge(octets[0]) == Valid {
        JudgeAllStops(rest, count + 1, thrown);
        PassableDoesNotThrow(octets[0], thrown);
        if Stops(rest, thrown) {
          var k :| StopsAt(rest, k, thrown);
          assert StopsAt(octets, k + 1, thrown);
        }
        if Stops(octets, thrown) {
          var k :| StopsAt(octets, k, thrown);
          assert k > 0 && StopsAt(rest, k - 1, thrown);
        }
      } else if Judge(octets[0]) == thrown {
        assert StopsAt(octets, 0, thrown);
      }
    }
  }

  lemma PassableDoesNotThrow(octet: string, thrown: Verdict)
    ensures !(Passable(octet) && Throws(octet, thrown))
  {
    hide Passable, Throws;
    JudgeMeaning(octet);
    if Throws(octet, thrown) {
      assert thrown == InvalidArgument || thrown == OutOfRange by { ThrownIs(octet, thrown); }
    }
  }

  lemma ThrownIs(octet: string, thrown: Verdict)
    requires Throws(octet, thrown)
    ensures thrown == InvalidArgument || thrown == OutOfRange
  {
  }

  lemma VerdictIs(s: string)
    ensures VerdictOn(s) == if |s| < 7 then Invalid else JudgeAll(Split(s), 0)
  {
    hide JudgeAll, Split;
  }

  /** Any text: it throws exactly at a piece without a number, or with one beyond an int. */
  lemma ThrowsExactly(s: string, thrown: Verdict)
    requires thrown == InvalidArgument || thrown == OutOfRange
    ensures VerdictOn(s) == thrown <==> |s| >= 7 && Stops(Split(s), thrown)
  {
    hide *;
    assert VerdictOn(s) == if |s| < 7 then Invalid else JudgeAll(Split(s), 0) by { VerdictIs(s); }
    JudgeAllStops(Split(s), 0, thrown);
  }

  /** On digits these are the empty piece and the piece of 2^31 or more, not led by a zero. */
  lemma ThrowsOnDigits(octet: string)
    requires AllDigits(octet)
    ensures Throws(octet, InvalidArgument) <==> octet == ""
    ensures Throws(octet, OutOfRange) <==>
      octet != "" && (|octet| > 1 ==> octet[0] != '0') && DigitsValue(octet) >= 0x8000_0000
    ensures Passable(octet) <==> IsOctet(octet)
  {
    hide Passable, Throws, IsOctet;
    JudgeMeaning(octet);
    JudgeDigits(octet);
    if octet != "" {
      StoiOfDigits(octet);
    }
  }

  /**
   * Digits and dots, from seven characters on: true on the canonical addresses, an exception
   * at an empty piece or one of 2^31 or more behind prints of 0..255, false on all others.
   * So it answers every such text correctly exactly when it reaches no such piece.
   */
  lemma DigitsAndDotsVerdict(s: string)
    requires DigitsAndDots(s)
    ensures VerdictOn(s) == Valid <==> Canonical(s)
    ensures VerdictOn(s) == InvalidArgument <==>
      |s| >= 7 && exists k :: PassedUpTo(Split(s), k) && Split(s)[k] == ""
    ensures VerdictOn(s) == OutOfRange <==>
      |s| >= 7 && exists k :: PassedUpTo(Split(s), k) && TooLarge(Split(s)[k])
  {
    hide Judge, JudgeAll, Split, Passable, Throws, Canonical;
    RecogniserExact(s);
    PiecesAreDigits(s);
    ThrowsExactly(s, InvalidArgument);
    ThrowsExactly(s, OutOfRange);
    var ps := Split(s);
    forall k | 0 <= k < |ps|
      ensures StopsAt(ps, k, InvalidArgument) <==> PassedUpTo(ps, k) && ps[k] == ""
      ensures StopsAt(ps, k, OutOfRange) <==> PassedUpTo(ps, k) && TooLarge(ps[k])
    {
      StopsOnDigits(ps, k);
    }
  }

  ghost predicate PassedUpTo(pieces: seq<string>, k: int) {
    0 <= k < |pieces| && forall i :: 0 <= i < k ==> IsOctet(pieces[i])
  }

  ghost predicate TooLarge(piece: string) {
    && AllDigits(piece) && piece != "" && (|piece| > 1 ==> piece[0] != '0')
    && DigitsValue(piece) >= 0x8000_0000
  }

  lemma TooLargeMeans(piece: string)
    requires AllDigits(piece)
    ensures TooLarge(piece) <==>
      piece != "" && (|piece| > 1 ==> piece[0] != '0') && DigitsValue(piece) >= 0x8000_0000
  {
  }

  lemma StopsOnDigits(ps: seq<string>, k: nat)
    requires k < |ps| && forall i :: 0 <= i < |ps| ==> AllDigits(ps[i])
    ensures StopsAt(ps, k, InvalidArgument) <==> PassedUpTo(ps, k) && ps[k] == ""
    ensures StopsAt(ps, k, OutOfRange) <==> PassedUpTo(ps, k) && TooLarge(ps[k])
  {
    hide Passable, Throws, IsOctet, TooLarge;
    forall i | 0 <= i < |ps|
      ensures Passable(ps[i]) <==> IsOctet(ps[i])
      ensures Throws(ps[i], InvalidArgument) <==> ps[i] == ""
      ensures Throws(ps[i], OutOfRange) <==> TooLarge(ps[i])
    {
      ThrowsOnDigits(ps[i]);
      TooLargeMeans(ps[i]);
    }
  }

  lemma ExampleText()
    ensures DigitsAndDots("1..2.3.4")
  {
  }

  lemma OneIsOctet()
    ensures IsOctet("1")
  {
    assert PrintNat(1) == "1";
  }

  /** An empty piece behind a passing one, for instance. */
  lemma EmptyOctetThrows()
    ensures DigitsAndDots("1..2.3.4") && VerdictOn("1..2.3.4") == InvalidArgument
  {
    var s := "1..2.3.4";
    hide Split, VerdictOn, DigitsAndDots, Canonical, TooLarge, IsOctet;
    assert DigitsAndDots(s) by { ExampleText(); }
    SplitOff(s, 1);
    SplitOff(s[2..], 0);
    var ps := Split(s);
    assert s[..1] == "1" && s[2..][..0] == "";
    assert ps == ["1"] + Split(s[2..]) && ps[1] == "";
    assert IsOctet(ps[0]) by { OneIsOctet(); }
    assert PassedUpTo(ps, 1);
    DigitsAndDotsVerdict(s);
  }

  // ---------- beyond addresses ----------

  lemma {:induction false} CharsOfPieces(s: string, i: nat)
    requires i < |s| && s[i] != '.'
    ensures exists k :: 0 <= k < |Split(s)| && s[i] in Split(s)[k]
  {
    var rest := Split(s[1..]);
    if i == 0 {
      assert s[0] in Split(s)[0];
    } else {
      CharsOfPieces(s[1..], i - 1);
      var k :| 0 <= k < |rest| && s[1..][i - 1] in rest[k];
      if s[0] == '.' {
        assert Split(s)[k + 1] == rest[k];
      } else if k == 0 {
        assert Split(s)[0] == [s[0]] + rest[0];
      } else {
        assert Split(s)[k] == rest[k];
      }
    }
  }

  /** A letter anywhere, or a zero in front of more in any piece, and the text is not accepted. */
  lemma NeverAccepted(s: string)
    requires (exists i :: 0 <= i < |s| && ('a' <= s[i] <= 'z' || 'A' <= s[i] <= 'Z'))
      || (exists k :: 0 <= k < |Split(s)| && |Split(s)[k]| > 1 && Split(s)[k][0] == '0')
    ensures VerdictOn(s) != Valid
  {
    AcceptedExactly(s);
    hide Split, VerdictOn, Denotes, FitsInt;
    if i :| 0 <= i < |s| && ('a' <= s[i] <= 'z' || 'A' <= s[i] <= 'Z') {
      CharsOfPieces(s, i);
      var k :| 0 <= k < |Split(s)| && s[i] in Split(s)[k];
      var j :| 0 <= j < |Split(s)[k]| && Split(s)[k][j] == s[i];
      assert IsAlpha(Split(s)[k][j]);
      assert !Passable(Split(s)[k]);
    } else {
      var k :| 0 <= k < |Split(s)| && |Split(s)[k]| > 1 && Split(s)[k][0] == '0';
      assert !Passable(Split(s)[k]);
    }
  }

  /** The whole range of stoi, sign by sign. */
  lemma StoiOfSigned(n: nat)
    ensures Stoi(PrintNat(n)) == if n <= 0x7FFF_FFFF then Success(n) else Failure(OutOfRange)
    ensures Stoi("+" + PrintNat(n)) == if n <= 0x7FFF_FFFF then Success(n) else Failure(OutOfRange)
    ensures Stoi("-" + PrintNat(n)) == if n <= 0x8000_0000 then Success(0 - n) else Failure(OutOfRange)
  {
    hide Stoi, PrintNat;
    var digits := PrintNat(n);
    PrintedValue(n);
    StoiOfDigits(digits);
    SignedNumber('+', digits);
    SignedNumber('-', digits);
  }

  lemma SignedNumber(sign: char, digits: string)
    requires (sign == '+' || sign == '-') && |digits| > 0 && AllDigits(digits)
    ensures var value := if sign == '-' then 0 - DigitsValue(digits) else DigitsValue(digits);
      Stoi([sign] + digits) == if FitsInt(value) then Success(value) else Failure(OutOfRange)
  {
    hide Stoi, FitsInt, DigitsValue;
    var s := [sign] + digits;
    assert s[1..|s|] == digits;
    assert NumberAt(s, 0, 1, |s|);
    StoiAt(s, 0, 1, |s|);
  }

  /** What may stand before the digits of a piece: white space or a sign. */
  predicate IsFront(c: char) {
    9 <= c as int <= 13 || c == ' ' || c == '+' || c == '-'
  }

  lemma FrontedPiece(c: char, n: nat)
    requires n < 256 && !IsDigit(c)
    ensures Passable([c] + PrintNat(n)) <==> IsFront(c)
  {
    var digits := PrintNat(n);
    var s := [c] + digits;
    PrintedValue(n);
    JudgeMeaning(s);
    hide Passable, Throws;
    assert s[1..] == digits && s[1..|s|] == digits;
    assert forall i :: 1 <= i < |s| ==> s[i] == digits[i - 1] && !IsAlpha(s[i]);
    if IsFront(c) {
      if IsSpace(c) {
        StoiAt(s, 1, 1, |s|);
      } else {
        SignedNumber(c, digits);
      }
      assert Plain(s);
    } else if !IsAlpha(c) {
      SpacesSkipped(s, 0);
      assert s[0..] == s;
      assert LeadingDigits(s) == 0;
    } else {
      assert !Plain(s);
      assert IsAlpha(s[0]);
    }
  }

  /**
   * In front of a canonical address just these characters pass: white space, plus and minus.
   * With any of them the text is no address.
   */
  lemma AcceptsInFront(front: char, a: nat, b: nat, c: nat, d: nat)
    requires a < 256 && b < 256 && c < 256 && d < 256 && !IsDigit(front) && front != '.'
    ensures var s := Join([[front] + PrintNat(a), PrintNat(b), PrintNat(c), PrintNat(d)]);
      (VerdictOn(s) == Valid <==> IsFront(front)) && !Canonical(s)
  {
    hide *;
    var first := [front] + PrintNat(a);
    var ps := [first, PrintNat(b), PrintNat(c), PrintNat(d)];
    FrontedPiece(front, a);
    PrintIsPassable(b);
    PrintIsPassable(c);
    PrintIsPassable(d);
    NoDotIn(front, a);
    FourPieces(first, PrintNat(b), PrintNat(c), PrintNat(d));
    StartsOtherwise(ps);
    RecogniserExact(Join(ps));
  }

  lemma PrintIsPassable(n: nat)
    requires n < 256
    ensures Passable(PrintNat(n)) && '.' !in PrintNat(n)
  {
    hide Judge, Passable;
    PrintPasses(n);
    JudgeMeaning(PrintNat(n));
  }

  lemma NoDotIn(front: char, n: nat)
    requires front != '.'
    ensures '.' !in [front] + PrintNat(n)
  {
    var digits := PrintNat(n);
    assert forall i :: 0 <= i < |digits| ==> IsDigit(digits[i]);
  }

  /** Four non-empty pieces without dots are accepted exactly if each passes. */
  lemma FourPieces(p: string, q: string, r: string, t: string)
    requires |p| > 0 && |q| > 0 && |r| > 0 && |t| > 0
    requires '.' !in p && '.' !in q && '.' !in r && '.' !in t
    ensures VerdictOn(Join([p, q, r, t])) == Valid <==> Passable(p) && Passable(q) && Passable(r) && Passable(t)
  {
    hide Passable, Join, Split, VerdictOn;
    var ps := [p, q, r, t];
    assert ps[0] == p && ps[1] == q && ps[2] == r && ps[3] == t;
    SplitOfJoin(ps);
    JoinLength(ps);
    AcceptedExactly(Join(ps));
  }

  lemma StartsOtherwise(ps: seq<string>)
    requires |ps| > 1 && |ps[0]| > 0 && !IsDigit(ps[0][0]) && ps[0][0] != '.'
    ensures !DigitsAndDots(Join(ps))
  {
    assert Join(ps)[0] == ps[0][0];
  }

  /** Behind the digits of a piece any character passes that is no letter: it is not looked at. */
  lemma AcceptsBehind(back: char, n: nat)
    requires n < 256 && !IsDigit(back)
    ensures Passable(PrintNat(n) + [back]) <==>
      !('a' <= back <= 'z' || 'A' <= back <= 'Z') && n > 0
  {
    var digits := PrintNat(n);
    var s := digits + [back];
    PrintedValue(n);
    JudgeMeaning(s);
    hide Passable, Throws;
    assert s[0..|digits|] == digits;
    StoiAt(s, 0, 0, |digits|);
    assert forall i :: 0 <= i < |digits| ==> s[i] == digits[i] && !IsAlpha(s[i]);
    assert s[|digits|] == back;
    FirstDigit(n);
    assert s[0] == digits[0];
  }

  lemma {:induction false} FirstDigit(n: nat)
    ensures PrintNat(n)[0] == '0' <==> n == 0
  {
    if n >= 10 {
      FirstDigit(n / 10);
    }
  }
}
