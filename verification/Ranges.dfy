/** `Range: bytes=…` headers, as the gateway and the service worker each read them. */
module Ranges {
  import opened Bytes
  import opened Decimal

  predicate IsSpace(c: char) {
    c in "\t\n\U{B}\U{C}\r \U{A0}\U{1680}\U{2028}\U{2029}\U{202F}\U{205F}\U{3000}\U{FEFF}"
    || '\U{2000}' <= c <= '\U{200A}'
  }

  function TrimStart(s: string): string {
    if s != "" && IsSpace(s[0]) then TrimStart(s[1..]) else s
  }

  function TrimEnd(s: string): string {
    if s != "" && IsSpace(s[|s| - 1]) then TrimEnd(s[..|s| - 1]) else s
  }

  function Trim(s: string): string { TrimEnd(TrimStart(s)) }

  /** Length of the longest run of digits `s` starts with. */
  function DigitRun(s: string): (k: nat)
    ensures k <= |s| && AllDigits(s[..k]) && (k < |s| ==> !IsDigit(s[k]))
  {
    if s != "" && IsDigit(s[0]) then 1 + DigitRun(s[1..]) else 0
  }

  /** The two groups of `/^bytes=(\d*)-(\d*)$/` against a trimmed header. */
  function Groups(header: string): (g: Option<(string, string)>)
    ensures g.Some? ==> AllDigits(g.value.0) && AllDigits(g.value.1)
  {
    var t := Trim(header);
    if |t| < 6 || t[..6] != "bytes=" then None
    else
      var k := DigitRun(t[6..]);
      if 6 + k == |t| || t[6 + k] != '-' then None
      else
        var rest := t[6 + k + 1..];
        if DigitRun(rest) < |rest| then None
        else
          assert t[6..][..k] == t[6..6 + k] && rest[..|rest|] == rest;
          Some((t[6..6 + k], rest))
  }

  /** The groups are the only way to read the trimmed header as `bytes=a-b`. */
  lemma GroupsExact(header: string, a: string, b: string)
    ensures Groups(header) == Some((a, b)) <==> AllDigits(a) && AllDigits(b) && Trim(header) == "bytes=" + a + "-" + b
  {
    var t := Trim(header);
    if Groups(header) == Some((a, b)) {
      assert t == t[..6] + t[6..6 + |a|] + [t[6 + |a|]] + t[6 + |a| + 1..];
    }
    if AllDigits(a) && AllDigits(b) && t == "bytes=" + a + "-" + b {
      assert t[..6] == "bytes=";
      assert t[6..] == a + ("-" + b);
      RunOf(a, "-" + b);
      RunOf(b, "");
      assert t[6..6 + |a|] == a && t[6 + |a| + 1..] == b && b + "" == b;
    }
  }

  lemma {:induction false} RunOf(digits: string, rest: string)
    requires AllDigits(digits) && (rest == "" || !IsDigit(rest[0]))
    ensures DigitRun(digits + rest) == |digits|
  {
    if digits == "" {
      assert digits + rest == rest;
    } else {
      assert (digits + rest)[1..] == digits[1..] + rest;
      RunOf(digits[1..], rest);
    }
  }

  datatype Asked = Whole | Bad | Range(start: nat, end: nat)

  /** The gateway's `parseRange`. */
  function ParseRange(header: Option<string>, total: nat): Asked {
    if header.None? || header.value == "" then Whole
    else
      match Groups(header.value)
      case None => Bad
      case Some((a, b)) =>
        if a == "" && b == "" then Bad
        else if a == "" && Value(b) == 0 then Bad
        else
          var start := if a == "" then Max(0, total - Value(b)) else Value(a);
          var end := if a == "" || b == "" then total - 1 else Min(Value(b), total - 1);
          if start > end || start >= total then Bad else Range(start, end)
  }

  /** What section 14.1.2 of RFC 9110 says a range asks for: position `p` of a representation of `total` bytes. */
  predicate Wants(a: string, b: string, total: nat, p: nat)
    requires AllDigits(a) && AllDigits(b)
  {
    if a == "" then b != "" && p + Value(b) >= total
    else Value(a) <= p && (b == "" || p <= Value(b))
  }

  /** An accepted range is in bounds and names exactly the positions asked for; a refused one names none. */
  lemma ParseRangeExact(header: string, total: nat)
    requires header != ""
    ensures match ParseRange(Some(header), total)
      case Whole => false
      case Bad => Groups(header).Some? ==>
        forall p: nat | p < total :: !Wants(Groups(header).value.0, Groups(header).value.1, total, p)
      case Range(start, end) =>
        && start <= end < total && Groups(header).Some?
        && forall p: nat | p < total ::
          Wants(Groups(header).value.0, Groups(header).value.1, total, p) <==> start <= p <= end
  {
  }

  /** The header the worker sends for stored bytes `a` to `b`. */
  function RangeHeader(a: nat, b: nat): string { "bytes=" + Render(a) + "-" + Render(b) }

  lemma HeaderGroups(a: nat, b: nat)
    ensures Groups(RangeHeader(a, b)) == Some((Render(a), Render(b)))
  {
    var h := RangeHeader(a, b);
    assert h[0] == 'b' && IsDigit(h[|h| - 1]);
    assert !IsSpace(h[0]) && !IsSpace(h[|h| - 1]);
    GroupsExact(h, Render(a), Render(b));
  }

  /** What the worker asks for is what the gateway understands, as far as there are bytes. */
  lemma HeaderUnderstood(a: nat, b: nat, total: nat)
    requires a <= b
    ensures ParseRange(Some(RangeHeader(a, b)), total) == if a < total then Range(a, Min(b, total - 1)) else Bad
  {
    HeaderGroups(a, b);
    ReadsBack(a);
    ReadsBack(b);
  }

  /** How the service worker reads the player's header, before it bounds the window. */
  datatype Played = Malformed | Unsatisfiable | Play(start: nat, end: nat)

  function PlayedRange(header: string, size: nat): Played
    requires 0 < size
  {
    match Groups(header)
    case None => Malformed
    case Some((a, b)) =>
      if a == "" && b == "" then Malformed
      else
        var start := if a == "" then Max(0, size - Value(b)) else Value(a);
        var end := if a == "" || b == "" then size - 1 else Min(Value(b), size - 1);
        if start >= size || start > end then Unsatisfiable else Play(start, end)
  }

  /** The two readers of a header never disagree about a range they serve. */
  lemma ReadersAgree(header: string, size: nat)
    requires 0 < size && header != ""
    ensures forall s: nat, e: nat ::
      PlayedRange(header, size) == Play(s, e) <==> ParseRange(Some(header), size) == Range(s, e)
    ensures ParseRange(Some(header), size) == Bad <==>
      PlayedRange(header, size).Malformed? || PlayedRange(header, size).Unsatisfiable?
  {
  }
}
