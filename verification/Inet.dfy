/** The text form of IPv4 addresses (src/inet.c). */
module Inet {
  import opened Options

  const EINVAL := -22
  const ENOSPC := -28

  type Address = a: seq<nat> | |a| == 4 && forall i :: 0 <= i < 4 ==> a[i] <= 255 witness [0, 0, 0, 0]

  function Digit(d: nat): char
    requires d < 10
  {
    '0' + d as char
  }

  /** What %u prints. */
  function Dec(n: nat): string {
    if n < 10 then [Digit(n)] else Dec(n / 10) + [Digit(n % 10)]
  }

  function Print(a: Address): string {
    Dec(a[0]) + "." + Dec(a[1]) + "." + Dec(a[2]) + "." + Dec(a[3])
  }

  // ---------------------------------------------------------------- the grammar

  predicate IsDigit(c: char) { '0' <= c <= '9' }

  /** dec-octet of section 3.2.2 of RFC 3986. */
  predicate DecOctet(s: string) {
    || (|s| == 1 && IsDigit(s[0]))
    || (|s| == 2 && '1' <= s[0] <= '9' && IsDigit(s[1]))
    || (|s| == 3 && s[0] == '1' && IsDigit(s[1]) && IsDigit(s[2]))
    || (|s| == 3 && s[0] == '2' && '0' <= s[1] <= '4' && IsDigit(s[2]))
    || (|s| == 3 && s[0] == '2' && s[1] == '5' && '0' <= s[2] <= '5')
  }

  /** IPv4address of the same section. */
  ghost predicate IPv4address(s: string) {
    exists a, b, c, d :: DecOctet(a) && DecOctet(b) && DecOctet(c) && DecOctet(d) && s == Dotted(a, b, c, d)
  }

  function Dotted(a: string, b: string, c: string, d: string): string { a + "." + b + "." + c + "." + d }

  function Value(s: string): nat
    requires DecOctet(s)
  {
    var d := (c: char) requires IsDigit(c) => (c - '0') as nat;
    if |s| == 1 then d(s[0]) else if |s| == 2 then 10 * d(s[0]) + d(s[1]) else 100 * d(s[0]) + 10 * d(s[1]) + d(s[2])
  }

  lemma DecIsOctet(n: nat)
    requires n <= 255
    ensures DecOctet(Dec(n))
  {
    if n < 10 {
    } else if n < 100 {
      assert Dec(n / 10) == [Digit(n / 10)];
    } else {
      assert Dec(n / 100) == [Digit(n / 100)];
      assert Dec(n / 10) == Dec(n / 10 / 10) + [Digit(n / 10 % 10)];
      assert n / 10 / 10 == n / 100;
    }
  }

  lemma OctetIsDec(s: string)
    requires DecOctet(s)
    ensures Value(s) <= 255 && Dec(Value(s)) == s
  {
    var n := Value(s);
    if |s| == 1 {
    } else if |s| == 2 {
      assert n / 10 == (s[0] - '0') as nat && n % 10 == (s[1] - '0') as nat;
      assert Dec(n / 10) == [Digit(n / 10)];
    } else {
      assert n / 100 == (s[0] - '0') as nat && n / 10 == 10 * (n / 100) + (s[1] - '0') as nat;
      assert n % 10 == (s[2] - '0') as nat;
      assert Dec(n / 100) == [Digit(n / 100)];
      assert Dec(n / 10) == Dec(n / 10 / 10) + [Digit(n / 10 % 10)];
    }
  }

  /** The printed addresses are exactly the strings of the grammar. */
  lemma GrammarIsPrinted(s: string)
    ensures IPv4address(s) <==> exists a: Address :: s == Print(a)
  {
    hide Dec, DecOctet;
    if IPv4address(s) {
      var p, q, r, t :| DecOctet(p) && DecOctet(q) && DecOctet(r) && DecOctet(t) && s == Dotted(p, q, r, t);
      OctetIsDec(p); OctetIsDec(q); OctetIsDec(r); OctetIsDec(t);
      assert s == Print([Value(p), Value(q), Value(r), Value(t)]);
    }
    if a: Address :| s == Print(a) {
      forall i | 0 <= i < 4 ensures DecOctet(Dec(a[i])) { DecIsOctet(a[i]); }
      assert s == Dotted(Dec(a[0]), Dec(a[1]), Dec(a[2]), Dec(a[3]));
    }
  }

  // ---------------------------------------------------------------- the parser as a function

  /** tmp up to tp, the octet at tp, and saw_digit. */
  datatype State = State(done: seq<nat>, cur: nat, saw: bool)

  function Step(st: State, c: char): Option<State> {
    var octets := |st.done| + if st.saw then 1 else 0;
    if IsDigit(c) then
      var nw := st.cur * 10 + (c - '0') as nat;
      if st.saw && st.cur == 0 then None
      else if nw > 255 then None
      else if !st.saw && octets + 1 > 4 then None
      else Some(State(st.done, nw, true))
    else if c == '.' && st.saw then
      if octets == 4 then None else Some(State(st.done + [st.cur], 0, false))
    else None
  }

  function Parse(s: string, st: State): Option<seq<nat>> {
    if s == "" then
      if |st.done| + (if st.saw then 1 else 0) < 4 then None else Some(st.done + [st.cur])
    else match Step(st, s[0])
      case None => None
      case Some(next) => Parse(s[1..], next)
  }

  const Begin := State([], 0, false)

  // ---------------------------------------------------------------- what it accepts was printed

  function Dots(done: seq<nat>): string {
    if done == [] then "" else Dots(done[..|done| - 1]) + Dec(done[|done| - 1]) + "."
  }

  /** The text read so far. */
  function Text(st: State): string { Dots(st.done) + if st.saw then Dec(st.cur) else "" }

  predicate StateOk(st: State) {
    |st.done| <= 3 && (forall i :: 0 <= i < |st.done| ==> st.done[i] <= 255) && st.cur <= 255 && (!st.saw ==> st.cur == 0)
  }

  lemma StepText(st: State, c: char)
    requires StateOk(st) && Step(st, c).Some?
    ensures StateOk(Step(st, c).value) && Text(Step(st, c).value) == Text(st) + [c]
  {
    hide Dots, Dec;
    var next := Step(st, c).value;
    if IsDigit(c) {
      DecDigit(st.cur, c);
      if st.saw {
        assert Dots(st.done) + (Dec(st.cur) + [c]) == (Dots(st.done) + Dec(st.cur)) + [c];
      }
    } else {
      DotsNext(st.done, st.cur);
    }
  }

  /** A digit behind a number that is not 0, or the first digit. */
  lemma DecDigit(n: nat, c: char)
    requires IsDigit(c)
    ensures n != 0 ==> Dec(n * 10 + (c - '0') as nat) == Dec(n) + [c]
    ensures n == 0 ==> Dec((c - '0') as nat) == [c]
  {
    var d := (c - '0') as nat;
    assert Digit(d) == c;
    if n != 0 { assert (n * 10 + d) / 10 == n && (n * 10 + d) % 10 == d; }
  }

  lemma DotsNext(done: seq<nat>, n: nat)
    ensures Dots(done + [n]) == (Dots(done) + Dec(n)) + ['.']
  {
    hide Dec;
    assert (done + [n])[..|done|] == done;
  }

  lemma {:induction false} Sound(s: string, st: State)
    requires StateOk(st) && Parse(s, st).Some?
    ensures var a := Parse(s, st).value;
            |a| == 4 && (forall i :: 0 <= i < 4 ==> a[i] <= 255) && Print(a) == Text(st) + s
    decreases |s|
  {
    hide Dots, Dec, Step, Print;
    if s == "" {
      assert st.saw;
      PrintDots(st.done, st.cur);
    } else {
      StepText(st, s[0]);
      Sound(s[1..], Step(st, s[0]).value);
      assert Text(st) + [s[0]] + s[1..] == Text(st) + s;
    }
  }

  lemma PrintDots(done: seq<nat>, n: nat)
    requires |done| == 3 && (forall i :: 0 <= i < 3 ==> done[i] <= 255) && n <= 255
    ensures Print(done + [n]) == Dots(done) + Dec(n)
  {
    hide Dec;
    var a, b := done[..1], done[..2];
    assert a[..0] == [] && b[..1] == a && done[..2] == b;
    assert Dots(a) == "" + Dec(done[0]) + ".";
    assert Dots(b) == Dots(a) + Dec(done[1]) + ".";
    assert Dots(done) == Dots(b) + Dec(done[2]) + ".";
  }

  // ---------------------------------------------------------------- what is printed is accepted

  lemma ParseFirst(c: char, rest: string, st: State)
    requires Step(st, c).Some?
    ensures Parse([c] + rest, st) == Parse(rest, Step(st, c).value)
  {
    assert ([c] + rest)[1..] == rest;
  }

  lemma ParseDec(n: nat, rest: string, done: seq<nat>)
    requires n <= 255 && |done| <= 3
    ensures Parse(Dec(n) + rest, State(done, 0, false)) == Parse(rest, State(done, n, true))
  {
    hide Parse;
    if n < 10 {
      ParseFirst(Digit(n), rest, State(done, 0, false));
    } else if n < 100 {
      assert Dec(n / 10) == [Digit(n / 10)];
      assert Dec(n) + rest == [Digit(n / 10)] + ([Digit(n % 10)] + rest);
      ParseFirst(Digit(n / 10), [Digit(n % 10)] + rest, State(done, 0, false));
      ParseFirst(Digit(n % 10), rest, State(done, n / 10, true));
    } else {
      var h, t, u := n / 100, n / 10 % 10, n % 10;
      assert n / 10 / 10 == h && Dec(h) == [Digit(h)] && Dec(n / 10) == Dec(h) + [Digit(t)];
      assert Dec(n) + rest == [Digit(h)] + ([Digit(t)] + ([Digit(u)] + rest));
      ParseFirst(Digit(h), [Digit(t)] + ([Digit(u)] + rest), State(done, 0, false));
      ParseFirst(Digit(t), [Digit(u)] + rest, State(done, h, true));
      ParseFirst(Digit(u), rest, State(done, n / 10, true));
    }
  }

  lemma Complete(a: Address)
    ensures Parse(Print(a), Begin) == Some(a)
  {
    hide Dec, Parse;
    var p3 := Dec(a[3]);
    var p2 := Dec(a[2]) + ("." + p3);
    var p1 := Dec(a[1]) + ("." + p2);
    assert Print(a) == Dec(a[0]) + ("." + p1);
    ParseDec(a[0], "." + p1, []);
    ParseFirst('.', p1, State([], a[0], true));
    assert [] + [a[0]] == [a[0]] && [a[0]] + [a[1]] == [a[0], a[1]] && [a[0], a[1]] + [a[2]] == [a[0], a[1], a[2]];
    ParseDec(a[1], "." + p2, [a[0]]);
    ParseFirst('.', p2, State([a[0]], a[1], true));
    ParseDec(a[2], "." + p3, [a[0], a[1]]);
    ParseFirst('.', p3, State([a[0], a[1]], a[2], true));
    ParseDec(a[3], "", [a[0], a[1], a[2]]);
    assert p3 + "" == p3;
    ParseEnd(State([a[0], a[1], a[2]], a[3], true));
    assert [a[0], a[1], a[2]] + [a[3]] == a;
  }

  lemma ParseEnd(st: State)
    requires |st.done| == 3 && st.saw
    ensures Parse("", st) == Some(st.done + [st.cur])
  {}

  /** The parser accepts exactly the printed addresses, and gives back the one that was printed. */
  lemma ParseIffPrinted(s: string, a: Address)
    ensures Parse(s, Begin) == Some(a) <==> s == Print(a)
    ensures Parse(s, Begin).Some? <==> IPv4address(s)
  {
    if s == Print(a) { Complete(a); }
    if Parse(s, Begin).Some? {
      Sound(s, Begin);
      assert Text(Begin) + s == s;
    }
    GrammarIsPrinted(s);
    if b: Address :| s == Print(b) { Complete(b); }
  }

  /** Different addresses are printed differently. */
  lemma PrintInjective(a: Address, b: Address)
    requires Print(a) == Print(b)
    ensures a == b
  {
    Complete(a);
    Complete(b);
  }

  // ---------------------------------------------------------------- the two functions

  lemma PrintLength(a: Address)
    ensures 7 <= |Print(a)| <= 15
  {
    forall i | 0 <= i < 4 ensures 1 <= |Dec(a[i])| <= 3 { DecIsOctet(a[i]); }
  }

  /** inet_ntop4: the text and its terminator must fit. */
  method Ntop4(src: Address, dst: array<char>) returns (err: int)
    modifies dst
    ensures err == 0 || err == ENOSPC
    ensures err == 0 <==> |Print(src)| < dst.Length
    ensures err == 0 ==> dst[..|Print(src)|] == Print(src) && forall i :: |Print(src)| <= i < dst.Length ==> dst[i] == '\0'
    ensures err != 0 ==> dst[..] == old(dst[..])
  {
    hide Print;
    var tmp := Print(src);
    PrintLength(src);
    var l := |tmp|;
    if l <= 0 || l >= dst.Length { return ENOSPC; }
    for i := 0 to dst.Length
      invariant forall j :: 0 <= j < i ==> dst[j] == if j < l then tmp[j] else '\0'
    {
      dst[i] := if i < l then tmp[i] else '\0';
    }
    dst[dst.Length - 1] := '\0';
    err := 0;
  }

  lemma NothingRead(s: string)
    ensures Text(Begin) + s == s
  {}

  /** inet_pton4: `src` is the string up to its terminator. */
  method Pton4(src: string, dst: array<nat>) returns (err: int)
    requires dst.Length == 4
    modifies dst
    ensures err == 0 || err == EINVAL
    ensures err == 0 <==> IPv4address(src)
    ensures err == 0 ==> (forall i :: 0 <= i < 4 ==> dst[i] <= 255) && Print(dst[..]) == src
    ensures err != 0 ==> dst[..] == old(dst[..])
  {
    hide IPv4address, Print, Text, Dots, Dec;
    ParseIffPrinted(src, [0, 0, 0, 0]);
    var saw, octets := false, 0;
    var tmp := new nat[4](_ => 0);
    var tp := 0;
    var i := 0;
    tmp[tp] := 0;
    while i < |src|
      invariant 0 <= i <= |src| && 0 <= tp < 4 && octets == tp + (if saw then 1 else 0)
      invariant StateOk(State(tmp[..tp], tmp[tp], saw))
      invariant Parse(src[i..], State(tmp[..tp], tmp[tp], saw)) == Parse(src, Begin)
      modifies tmp
    {
      var ch := src[i];
      ghost var st := State(tmp[..tp], tmp[tp], saw);
      i := i + 1;
      assert src[i - 1..][1..] == src[i..];
      if Step(st, ch).Some? { StepText(st, ch); }
      if IsDigit(ch) {
        var nw := tmp[tp] * 10 + (ch - '0') as nat;
        if saw && tmp[tp] == 0 { return EINVAL; }
        if nw > 255 { return EINVAL; }
        tmp[tp] := nw;
        assert tmp[..tp] == st.done;
        if !saw {
          octets := octets + 1;
          if octets > 4 { return EINVAL; }
          saw := true;
        }
      } else if ch == '.' && saw {
        if octets == 4 { return EINVAL; }
        tp := tp + 1;
        tmp[tp] := 0;
        assert tmp[..tp] == st.done + [st.cur];
        saw := false;
      } else {
        return EINVAL;
      }
      assert Step(st, ch) == Some(State(tmp[..tp], tmp[tp], saw));
    }
    assert src[i..] == "";
    if octets < 4 { return EINVAL; }
    ghost var a := tmp[..3] + [tmp[3]];
    Sound(src, Begin);
    NothingRead(src);
    forall j | 0 <= j < 4 { dst[j] := tmp[j]; }
    assert dst[..] == a;
    err := 0;
  }
}
