/** Pin masks as text: "0-15,26-29". */
module Pins {
  import opened Words

  const PINS: nat := 64

  type Mask = m: nat | m < 0x1_0000_0000_0000_0000

  /** Pins `lo` to `hi`, both included. */
  datatype Span = Span(lo: nat, hi: nat)

  lemma MaskBound()
    ensures Pow2(PINS) == 0x1_0000_0000_0000_0000
  {
    Pow2Word();
    assert Pow2(40) == 0x100 * Pow2(32);
    assert Pow2(48) == 0x100 * Pow2(40);
    assert Pow2(56) == 0x100 * Pow2(48);
    assert Pow2(64) == 0x100 * Pow2(56);
  }

  // Printing

  function Digit(n: nat): char
    requires n < 10
  {
    '0' + n as char
  }

  function Digits(n: nat): (s: string)
    ensures s != "" && forall c :: c in s ==> '0' <= c <= '9'
  {
    if n < 10 then [Digit(n)] else Digits(n / 10) + [Digit(n % 10)]
  }

  function Show(s: Span): string {
    if s.lo == s.hi then Digits(s.lo) else Digits(s.lo) + "-" + Digits(s.hi)
  }

  function Join(parts: seq<string>): string {
    if parts == [] then ""
    else if |parts| == 1 then parts[0]
    else parts[0] + "," + Join(parts[1..])
  }

  /** The last pin of the run of set pins that `pin` is in. */
  function RunEnd(mask: Mask, pin: nat): (end: nat)
    requires pin < PINS
    ensures pin <= end < PINS
    decreases PINS - pin
  {
    if pin < PINS - 1 && HasBit(mask, pin + 1) then RunEnd(mask, pin + 1) else pin
  }

  /** The runs of set pins from `pin` on. */
  function Spans(mask: Mask, pin: nat): seq<Span>
    requires pin <= PINS
    decreases PINS - pin
  {
    if pin == PINS then []
    else if !HasBit(mask, pin) then Spans(mask, pin + 1)
    else [Span(pin, RunEnd(mask, pin))] + Spans(mask, RunEnd(mask, pin) + 1)
  }

  function Shown(spans: seq<Span>): (parts: seq<string>)
    ensures |parts| == |spans|
    ensures forall i :: 0 <= i < |parts| ==> parts[i] == Show(spans[i])
  {
    seq(|spans|, i requires 0 <= i < |spans| => Show(spans[i]))
  }

  function Format(mask: Mask): string {
    Join(Shown(Spans(mask, 0)))
  }

  lemma NoneShown()
    ensures Shown([]) == []
  {
  }

  lemma ShownMore(spans: seq<Span>, s: Span)
    ensures Shown(spans + [s]) == Shown(spans) + [Show(s)]
  {
  }

  /** `format_pin_ranges`. */
  method FormatPinRanges(mask: Mask) returns (text: string)
    ensures text == Format(mask)
  {
    hide HasBit, Show, Shown;
    NoneShown();
    var parts: seq<string> := [];
    ghost var done: seq<Span> := [];
    var pin: nat := 0;
    while pin < PINS
      invariant pin <= PINS && parts == Shown(done)
      invariant Spans(mask, 0) == done + Spans(mask, pin)
    {
      if !HasBit(mask, pin) {
        pin := pin + 1;
      } else {
        var start := pin;
        while pin < PINS - 1 && HasBit(mask, pin + 1)
          invariant start <= pin < PINS && RunEnd(mask, start) == RunEnd(mask, pin)
        {
          pin := pin + 1;
        }
        var s := Span(start, pin);
        assert RunEnd(mask, pin) == pin;
        ShownMore(done, s);
        Regroup(done, [s], Spans(mask, pin + 1));
        done := done + [s];
        parts := parts + [Show(s)];
        pin := pin + 1;
      }
    }
    assert done + [] == done;
    text := Join(parts);
  }

  /** The spans are exactly the set pins, ascending, with an unset pin between any two. */
  predicate Printed(mask: Mask, from: nat, spans: seq<Span>) {
    && (forall s :: s in spans ==> from <= s.lo <= s.hi < PINS)
    && (forall i, j :: 0 <= i < j < |spans| ==> spans[i].hi + 1 < spans[j].lo)
    && (forall p :: from <= p < PINS ==> (HasBit(mask, p) <==> Covered(spans, p)))
  }

  predicate Covered(spans: seq<Span>, p: nat) {
    exists s :: s in spans && s.lo <= p <= s.hi
  }

  lemma {:induction false} RunIsSet(mask: Mask, pin: nat)
    requires pin < PINS && HasBit(mask, pin)
    ensures var end := RunEnd(mask, pin);
            && (forall p :: pin <= p <= end ==> HasBit(mask, p))
            && (end + 1 < PINS ==> !HasBit(mask, end + 1))
    decreases PINS - pin
  {
    if pin < PINS - 1 && HasBit(mask, pin + 1) { RunIsSet(mask, pin + 1); }
  }

  lemma CoveredMore(first: Span, rest: seq<Span>, p: nat)
    ensures Covered([first] + rest, p) <==> first.lo <= p <= first.hi || Covered(rest, p)
  {
    var all := [first] + rest;
    assert first in all && forall s :: s in rest ==> s in all;
  }

  lemma PrintedMore(mask: Mask, pin: nat, end: nat, rest: seq<Span>)
    requires pin <= end < PINS && Printed(mask, end + 1, rest)
    requires (forall p :: pin <= p <= end ==> HasBit(mask, p)) && (end + 1 < PINS ==> !HasBit(mask, end + 1))
    ensures Printed(mask, pin, [Span(pin, end)] + rest)
  {
    hide HasBit, Covered;
    forall s | s in rest ensures end + 1 < s.lo {
      LowCovered(rest, s);
    }
    forall p | pin <= p < PINS ensures HasBit(mask, p) <==> Covered([Span(pin, end)] + rest, p) {
      CoveredMore(Span(pin, end), rest, p);
    }
  }

  lemma LowCovered(spans: seq<Span>, s: Span)
    requires s in spans && s.lo <= s.hi
    ensures Covered(spans, s.lo)
  {
  }

  lemma NotCovered(mask: Mask, pin: nat, spans: seq<Span>)
    requires pin < PINS && Printed(mask, pin + 1, spans) && !HasBit(mask, pin)
    ensures Printed(mask, pin, spans)
  {
    hide HasBit;
  }

  lemma {:induction false} SpansPrinted(mask: Mask, pin: nat)
    requires pin <= PINS
    ensures Printed(mask, pin, Spans(mask, pin))
    decreases PINS - pin
  {
    hide HasBit, Printed, RunEnd;
    if pin == PINS {
      NothingPrinted(mask);
    } else if !HasBit(mask, pin) {
      SpansPrinted(mask, pin + 1);
      NotCovered(mask, pin, Spans(mask, pin + 1));
    } else {
      RunIsSet(mask, pin);
      SpansPrinted(mask, RunEnd(mask, pin) + 1);
      PrintedMore(mask, pin, RunEnd(mask, pin), Spans(mask, RunEnd(mask, pin) + 1));
    }
  }

  lemma NothingPrinted(mask: Mask)
    ensures Printed(mask, PINS, [])
  {
  }

  // Parsing

  /** Unicode white space. */
  predicate IsSpace(c: char) {
    var n := c as int;
    || 0x09 <= n <= 0x0D || n in {0x20, 0x85, 0xA0, 0x1680, 0x2028, 0x2029, 0x202F, 0x205F, 0x3000}
    || 0x2000 <= n <= 0x200A
  }

  /** The characters with the Unicode property White_Space. */
  const WHITE_SPACE := "\U{0009}\U{000A}\U{000B}\U{000C}\U{000D}\U{0020}\U{0085}\U{00A0}\U{1680}\U{2000}\U{2001}"
    + "\U{2002}\U{2003}\U{2004}\U{2005}\U{2006}\U{2007}\U{2008}\U{2009}\U{200A}\U{2028}\U{2029}\U{202F}\U{205F}\U{3000}"

  lemma SpaceIs(c: char)
    ensures IsSpace(c) <==> c in WHITE_SPACE
  {
  }

  function TrimStart(s: string): string {
    if s != "" && IsSpace(s[0]) then TrimStart(s[1..]) else s
  }

  function TrimEnd(s: string): string {
    if s != "" && IsSpace(s[|s| - 1]) then TrimEnd(s[..|s| - 1]) else s
  }

  function Trim(s: string): string { TrimEnd(TrimStart(s)) }

  /** Before the first `c` and after it. */
  function SplitOnce(s: string, c: char): Option<(string, string)> {
    if s == "" then None
    else if s[0] == c then Some(("", s[1..]))
    else
      var rest := SplitOnce(s[1..], c);
      if rest.None? then None else Some(([s[0]] + rest.value.0, rest.value.1))
  }

  function Split(s: string, c: char): (parts: seq<string>)
    ensures parts != []
  {
    if s == "" then [""]
    else if s[0] == c then [""] + Split(s[1..], c)
    else
      var rest := Split(s[1..], c);
      [[s[0]] + rest[0]] + rest[1..]
  }

  function Value(s: string): Option<nat> {
    if s == "" then Some(0)
    else
      var front, last := Value(s[..|s| - 1]), s[|s| - 1];
      if front.None? || !('0' <= last <= '9') then None
      else Some(10 * front.value + (last as int - '0' as int))
  }

  /** `str::parse::<u8>`: an optional plus sign, then digits. */
  function ParseU8(s: string): Option<u8> {
    var digits := if s != "" && s[0] == '+' then s[1..] else s;
    var v := Value(digits);
    if digits == "" || v.None? || v.value > 255 then None else Some(v.value)
  }

  function ParsePin(text: string): Option<nat> {
    var pin := ParseU8(Trim(text));
    if pin.None? || pin.value > 63 then None else Some(pin.value)
  }

  /** One part of the list: a pin or a range that does not descend. */
  function ParseSpan(part: string): Option<Span> {
    match SplitOnce(part, '-')
    case None =>
      var pin := ParsePin(part);
      if pin.None? then None else Some(Span(pin.value, pin.value))
    case Some((lo, hi)) =>
      var l, h := ParsePin(lo), ParsePin(hi);
      if l.None? || h.None? || l.value > h.value then None else Some(Span(l.value, h.value))
  }

  lemma SetBitMask(mask: Mask, pin: nat)
    requires pin < PINS
    ensures SetBit(mask, pin) < 0x1_0000_0000_0000_0000
  {
    MaskBound();
    SetBitBound(mask, pin, PINS);
  }

  /** The pins of a span added to a mask. */
  function AddSpan(mask: Mask, lo: nat, hi: nat): Mask
    requires hi < PINS
    decreases hi + 1 - lo
  {
    if lo > hi then mask
    else
      SetBitMask(mask, lo);
      AddSpan(SetBit(mask, lo), lo + 1, hi)
  }

  lemma ParseSpanBound(part: string)
    ensures ParseSpan(part).Some? ==> ParseSpan(part).value.lo <= ParseSpan(part).value.hi < PINS
  {
  }

  /** The pins of a list of parts added to a mask; empty parts do not matter. */
  function ParseParts(mask: Mask, parts: seq<string>): Option<Mask>
    decreases |parts|
  {
    if parts == [] then Some(mask)
    else if Trim(parts[0]) == "" then ParseParts(mask, parts[1..])
    else
      var s := ParseSpan(Trim(parts[0]));
      ParseSpanBound(Trim(parts[0]));
      if s.None? then None else ParseParts(AddSpan(mask, s.value.lo, s.value.hi), parts[1..])
  }

  function Parse(text: string): Option<Mask> {
    ParseParts(0, Split(text, ','))
  }

  /** `parse_pin_ranges`. */
  method ParsePinRanges(text: string) returns (r: Option<Mask>)
    ensures r == Parse(text)
  {
    hide Trim, ParseSpan, SetBit, Split;
    var parts, mask: Mask, i := Split(text, ','), 0, 0;
    assert parts[0..] == parts;
    while i < |parts|
      invariant 0 <= i <= |parts| && Parse(text) == ParseParts(mask, parts[i..])
    {
      assert parts[i..][0] == parts[i] && parts[i..][1..] == parts[i + 1..];
      var part := Trim(parts[i]);
      if part != "" {
        var s := ParseSpan(part);
        ParseSpanBound(part);
        if s.None? {
          return None;
        }
        ghost var goal := AddSpan(mask, s.value.lo, s.value.hi);
        var pin := s.value.lo;
        while pin <= s.value.hi
          invariant s.value.lo <= pin <= s.value.hi + 1 && AddSpan(mask, pin, s.value.hi) == goal
        {
          SetBitMask(mask, pin);
          mask := SetBit(mask, pin);
          pin := pin + 1;
        }
      }
      i := i + 1;
    }
    r := Some(mask);
  }

  // Printing, then parsing

  lemma {:induction false} ValueOfDigits(n: nat)
    ensures Value(Digits(n)) == Some(n)
  {
    if n >= 10 {
      ValueOfDigits(n / 10);
      assert Digits(n)[..|Digits(n)| - 1] == Digits(n / 10);
    } else {
      assert Digits(n)[..0] == "";
    }
  }

  lemma TrimDigits(s: string)
    requires s != "" && '0' <= s[0] <= '9' && '0' <= s[|s| - 1] <= '9'
    ensures Trim(s) == s
  {
  }

  lemma ParsePinOfDigits(n: nat)
    requires n < PINS
    ensures ParsePin(Digits(n)) == Some(n)
  {
    hide Trim, Digits, Value;
    var s := Digits(n);
    assert s[0] in s && s[|s| - 1] in s;
    TrimDigits(s);
    ValueOfDigits(n);
  }

  lemma {:induction false} SplitOnceAt(a: string, c: char, b: string)
    requires c !in a
    ensures SplitOnce(a + [c] + b, c) == Some((a, b))
    ensures SplitOnce(a, c) == None
  {
    if a == "" {
      assert a + [c] + b == [c] + b;
    } else {
      assert (a + [c] + b)[1..] == a[1..] + [c] + b;
      SplitOnceAt(a[1..], c, b);
      assert [a[0]] + a[1..] == a;
    }
  }

  lemma ShownParses(s: Span)
    requires s.lo <= s.hi < PINS
    ensures Show(s) != "" && ',' !in Show(s) && Trim(Show(s)) == Show(s) && ParseSpan(Show(s)) == Some(s)
  {
    hide Digits, Trim, ParsePin;
    var lo, hi := Digits(s.lo), Digits(s.hi);
    assert lo[0] in lo && hi[|hi| - 1] in hi && lo[|lo| - 1] in lo;
    TrimDigits(Show(s));
    ParsePinOfDigits(s.lo);
    ParsePinOfDigits(s.hi);
    SplitOnceAt(lo, '-', hi);
  }

  lemma {:induction false} SplitFirst(a: string, c: char, b: string)
    requires c !in a
    ensures Split(a + [c] + b, c) == [a] + Split(b, c)
    ensures Split(a, c) == [a]
  {
    if a == "" {
      assert a + [c] + b == [c] + b;
    } else {
      assert (a + [c] + b)[1..] == a[1..] + [c] + b;
      SplitFirst(a[1..], c, b);
      assert [a[0]] + a[1..] == a;
    }
  }

  lemma {:induction false} SplitJoined(parts: seq<string>)
    requires parts != [] && forall p :: p in parts ==> ',' !in p
    ensures Split(Join(parts), ',') == parts
  {
    SplitFirst(parts[0], ',', Join(parts[1..]));
    if |parts| > 1 {
      SplitJoined(parts[1..]);
      assert parts == [parts[0]] + parts[1..];
    }
  }

  predicate Valid(spans: seq<Span>) {
    forall s :: s in spans ==> s.lo <= s.hi < PINS
  }

  lemma {:induction false} AddedPins(mask: Mask, lo: nat, hi: nat, p: nat)
    requires hi < PINS
    ensures HasBit(AddSpan(mask, lo, hi), p) <==> HasBit(mask, p) || lo <= p <= hi
    decreases hi + 1 - lo
  {
    hide HasBit, SetBit;
    if lo <= hi {
      SetBitMask(mask, lo);
      SetBitHas(mask, lo, p);
      AddedPins(SetBit(mask, lo), lo + 1, hi, p);
    }
  }

  /** What the parts of a printed list parse to. */
  function Added(mask: Mask, spans: seq<Span>): Mask
    requires Valid(spans)
    decreases |spans|
  {
    if spans == [] then mask
    else
      assert spans[0] in spans;
      Added(AddSpan(mask, spans[0].lo, spans[0].hi), spans[1..])
  }

  lemma {:induction false} PartsParse(mask: Mask, spans: seq<Span>)
    requires Valid(spans)
    ensures ParseParts(mask, Shown(spans)) == Some(Added(mask, spans))
    ensures forall p :: p in Shown(spans) ==> ',' !in p
    decreases |spans|
  {
    hide Show, ParseSpan, Trim, AddSpan;
    if spans != [] {
      var s := spans[0];
      assert s in spans;
      ShownParses(s);
      PartsParse(AddSpan(mask, s.lo, s.hi), spans[1..]);
      assert Shown(spans) == [Show(s)] + Shown(spans[1..]);
    }
  }

  lemma {:induction false} AddedHas(mask: Mask, spans: seq<Span>, p: nat)
    requires Valid(spans)
    ensures HasBit(Added(mask, spans), p) <==> HasBit(mask, p) || exists s :: s in spans && s.lo <= p <= s.hi
    decreases |spans|
  {
    hide AddSpan, HasBit;
    if spans != [] {
      var s := spans[0];
      assert s in spans;
      AddedPins(mask, s.lo, s.hi, p);
      AddedHas(AddSpan(mask, s.lo, s.hi), spans[1..], p);
      assert spans == [s] + spans[1..];
    }
  }

  /** Parsing the printed ranges of a mask gives the mask back. */
  lemma PrintThenParse(mask: Mask)
    ensures Parse(Format(mask)) == Some(mask)
  {
    hide Spans, Show, ParseSpan, HasBit, Trim, AddSpan;
    var spans := Spans(mask, 0);
    SpansPrinted(mask, 0);
    PartsParse(0, spans);
    if spans == [] {
      TrimNothing();
    } else {
      SplitJoined(Shown(spans));
    }
    var back := Added(0, spans);
    forall p: nat | p < PINS ensures HasBit(back, p) == HasBit(mask, p) {
      AddedHas(0, spans, p);
      NoBits(p);
    }
    MaskBound();
    SameMask(back, mask, PINS);
  }

  lemma TrimNothing()
    ensures Trim("") == ""
  {
  }

  /** Two accepted texts denote the same mask exactly when they print alike. */
  lemma SameMaskPrintsAlike(a: string, b: string)
    requires Parse(a).Some? && Parse(b).Some?
    ensures Parse(a) == Parse(b) <==> Format(Parse(a).value) == Format(Parse(b).value)
  {
    PrintThenParse(Parse(a).value);
    PrintThenParse(Parse(b).value);
  }

  // Lists as people write them

  /** A number in a list, with what may stand around it: white space, a plus sign, zeros. */
  datatype Number = Number(before: string, plus: bool, zeros: nat, n: nat, after: string)

  datatype Part = Gap(spaces: string) | One(pin: Number) | From(lo: Number, hi: Number)

  predicate Blank(s: string) {
    forall c :: c in s ==> c == ' ' || c == '\t' || c == '\n' || c == '\r'
  }

  predicate Good(p: Part) {
    match p
    case Gap(spaces) => Blank(spaces)
    case One(pin) => Blank(pin.before) && Blank(pin.after)
    case From(lo, hi) => Blank(lo.before) && Blank(lo.after) && Blank(hi.before) && Blank(hi.after)
  }

  function Core(x: Number): string {
    (if x.plus then "+" else "") + (seq(x.zeros, _ => '0') + Digits(x.n))
  }

  function Written(p: Part): string {
    match p
    case Gap(spaces) => spaces
    case One(pin) => pin.before + Core(pin) + pin.after
    case From(lo, hi) => lo.before + (Core(lo) + lo.after + ['-'] + (hi.before + Core(hi))) + hi.after
  }

  function AllWritten(parts: seq<Part>): (texts: seq<string>)
    ensures |texts| == |parts|
    ensures forall i :: 0 <= i < |texts| ==> texts[i] == Written(parts[i])
  {
    seq(|parts|, i requires 0 <= i < |parts| => Written(parts[i]))
  }

  /** The pins a part names: from 0 to 63 and not descending, or it is wrong. */
  function Named(p: Part): Option<Span>
    requires !p.Gap?
  {
    match p
    case One(pin) => if pin.n <= 63 then Some(Span(pin.n, pin.n)) else None
    case From(lo, hi) => if lo.n <= hi.n <= 63 then Some(Span(lo.n, hi.n)) else None
  }

  /** The mask a list stands for; gaps between commas name nothing. */
  function MaskOf(mask: Mask, parts: seq<Part>): Option<Mask>
    decreases |parts|
  {
    if parts == [] then Some(mask)
    else if parts[0].Gap? then MaskOf(mask, parts[1..])
    else if Named(parts[0]).None? then None
    else MaskOf(AddSpan(mask, Named(parts[0]).value.lo, Named(parts[0]).value.hi), parts[1..])
  }

  lemma {:induction false} TrimStartPast(pad: string, s: string)
    requires Blank(pad) && (s != "" ==> !IsSpace(s[0]))
    ensures TrimStart(pad + s) == s
  {
    if pad == "" {
      assert pad + s == s;
    } else {
      assert pad[0] in pad && forall c :: c in pad[1..] ==> c in pad;
      assert IsSpace(pad[0]) && (pad + s)[1..] == pad[1..] + s;
      TrimStartPast(pad[1..], s);
    }
  }

  lemma {:induction false} TrimEndPast(s: string, pad: string)
    requires Blank(pad) && (s != "" ==> !IsSpace(s[|s| - 1]))
    ensures TrimEnd(s + pad) == s
    decreases |pad|
  {
    if pad == "" {
      assert s + pad == s;
    } else {
      var front, last := pad[..|pad| - 1], pad[|pad| - 1];
      assert last in pad && (forall c :: c in front ==> c in pad) && pad == front + [last];
      assert IsSpace(last) && s + pad == (s + front) + [last];
      assert (s + pad)[..|s + pad| - 1] == s + front;
      TrimEndPast(s, front);
    }
  }

  /** White space around a text that begins and ends with something else goes. */
  lemma TrimPast(before: string, s: string, after: string)
    requires Blank(before) && Blank(after) && s != "" && !IsSpace(s[0]) && !IsSpace(s[|s| - 1])
    ensures Trim(before + s + after) == s
  {
    hide TrimStart, TrimEnd;
    assert before + s + after == before + (s + after);
    TrimStartPast(before, s + after);
    TrimEndPast(s, after);
  }

  lemma {:induction false} ValueOfZeros(k: nat, s: string)
    ensures Value(seq(k, _ => '0') + s) == Value(s)
    decreases |s|, k
  {
    var t := seq(k, _ => '0') + s;
    if s == "" {
      if k > 0 {
        assert t[..|t| - 1] == seq(k - 1, _ => '0') + "";
        ValueOfZeros(k - 1, "");
      }
    } else {
      assert t[..|t| - 1] == seq(k, _ => '0') + s[..|s| - 1] && t[|t| - 1] == s[|s| - 1];
      ValueOfZeros(k, s[..|s| - 1]);
    }
  }

  /** A number's own characters: a sign or a digit first, a digit last, no comma or dash. */
  lemma CoreIs(x: Number)
    ensures var s := Core(x);
            && s != "" && !IsSpace(s[0]) && !IsSpace(s[|s| - 1]) && '-' !in s && ',' !in s
            && ParseU8(s) == if x.n <= 255 then Some(x.n) else None
  {
    hide Digits, Value;
    var digits := seq(x.zeros, _ => '0') + Digits(x.n);
    ValueOfZeros(x.zeros, Digits(x.n));
    ValueOfDigits(x.n);
    assert forall c :: c in digits ==> '0' <= c <= '9';
    assert digits[0] in digits && digits[|digits| - 1] in digits;
    var s := Core(x);
    assert s == if x.plus then ['+'] + digits else digits;
    if x.plus { assert s[1..] == digits; }
  }

  lemma PinWritten(before: string, x: Number, after: string)
    requires Blank(before) && Blank(after)
    ensures ParsePin(before + Core(x) + after) == if x.n <= 63 then Some(x.n) else None
  {
    hide Core, Trim, ParseU8;
    CoreIs(x);
    TrimPast(before, Core(x), after);
  }

  lemma OneParsed(pin: Number)
    requires Good(One(pin))
    ensures var text := Written(One(pin));
            ',' !in text && Trim(text) != "" && ParseSpan(Trim(text)) == Named(One(pin))
  {
    hide Core, Trim, ParsePin, IsSpace;
    CoreIs(pin);
    TrimPast(pin.before, Core(pin), pin.after);
    PinWritten("", pin, "");
    assert "" + Core(pin) + "" == Core(pin);
    SplitOnceAt(Core(pin), '-', "");
  }

  /** What stands on the two sides of a dash. */
  lemma Sides(x: Number)
    requires Blank(x.before) && Blank(x.after)
    ensures var a := Core(x) + x.after;
            && a != "" && !IsSpace(a[0]) && '-' !in a && ',' !in a
            && ParsePin(a) == if x.n <= 63 then Some(x.n) else None
    ensures var b := x.before + Core(x);
            && b != "" && !IsSpace(b[|b| - 1]) && ',' !in b
            && ParsePin(b) == if x.n <= 63 then Some(x.n) else None
  {
    hide Core, ParsePin, IsSpace;
    CoreIs(x);
    PinWritten("", x, x.after);
    PinWritten(x.before, x, "");
    assert "" + Core(x) + x.after == Core(x) + x.after && x.before + Core(x) + "" == x.before + Core(x);
  }

  lemma Dashed(a: string, b: string)
    requires '-' !in a
    ensures var l, h := ParsePin(a), ParsePin(b);
            ParseSpan(a + ['-'] + b)
            == if l.None? || h.None? || l.value > h.value then None else Some(Span(l.value, h.value))
  {
    hide ParsePin, SplitOnce;
    SplitOnceAt(a, '-', b);
  }

  lemma FromParsed(lo: Number, hi: Number)
    requires Good(From(lo, hi))
    ensures var text := Written(From(lo, hi));
            ',' !in text && Trim(text) != "" && ParseSpan(Trim(text)) == Named(From(lo, hi))
  {
    hide Core, Trim, ParsePin, IsSpace, ParseSpan;
    Sides(lo);
    Sides(hi);
    var a, b := Core(lo) + lo.after, hi.before + Core(hi);
    var middle := a + ['-'] + b;
    assert middle[0] == a[0] && middle[|middle| - 1] == b[|b| - 1];
    TrimPast(lo.before, middle, hi.after);
    Dashed(a, b);
  }

  /** A part names what it is written for, and nothing else. */
  lemma PartParsed(p: Part)
    requires Good(p)
    ensures ',' !in Written(p)
    ensures if p.Gap? then Trim(Written(p)) == ""
            else Trim(Written(p)) != "" && ParseSpan(Trim(Written(p))) == Named(p)
  {
    hide Core, Trim, ParseSpan, Named;
    match p
    case Gap(spaces) => BlankTrims(spaces);
    case One(pin) => OneParsed(pin);
    case From(lo, hi) => FromParsed(lo, hi);
  }

  lemma BlankTrims(s: string)
    requires Blank(s)
    ensures Trim(s) == ""
  {
    hide TrimStart, TrimEnd, IsSpace;
    TrimStartPast(s, "");
    TrimEndPast("", "");
    assert s + "" == s && "" + "" == "";
  }

  lemma {:induction false} PartsParsed(mask: Mask, parts: seq<Part>)
    requires forall p :: p in parts ==> Good(p)
    ensures ParseParts(mask, AllWritten(parts)) == MaskOf(mask, parts)
    ensures forall t :: t in AllWritten(parts) ==> ',' !in t
    decreases |parts|
  {
    hide Written, Trim, ParseSpan, Named, AddSpan, Good;
    if parts != [] {
      PartParsed(parts[0]);
      NamedBound(parts[0]);
      assert AllWritten(parts) == [Written(parts[0])] + AllWritten(parts[1..]);
      PartsParsed(mask, parts[1..]);
      if !parts[0].Gap? && Named(parts[0]).Some? {
        PartsParsed(AddSpan(mask, Named(parts[0]).value.lo, Named(parts[0]).value.hi), parts[1..]);
      }
    }
  }

  lemma NamedBound(p: Part)
    ensures !p.Gap? && Named(p).Some? ==> Named(p).value.lo <= Named(p).value.hi < PINS
  {
  }

  /** Any list of pins and ranges, however spaced, signed and padded, is the mask of the pins
      it names; and it is refused exactly if a pin is above 63 or a range descends. */
  lemma ListParsed(parts: seq<Part>)
    requires parts != [] && forall p :: p in parts ==> Good(p)
    ensures Parse(Join(AllWritten(parts))) == MaskOf(0, parts)
  {
    hide Written, ParseParts, MaskOf, Good;
    PartsParsed(0, parts);
    SplitJoined(AllWritten(parts));
  }
}
