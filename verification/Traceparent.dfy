/** The W3C traceparent header, printed by one service and parsed by the next. */
module Traceparent {
  import opened Options
  import opened Text

  datatype TraceContext = TraceContext(traceId: string, parentSpanId: string)

  predicate IsHex(c: char) { '0' <= c <= '9' || 'a' <= c <= 'f' }

  predicate AllHex(s: string) { forall i :: 0 <= i < |s| ==> IsHex(s[i]) }

  /** Sections 3.2.2.3 and 3.2.2.4 of W3C Trace Context: an id of zeros only is invalid. */
  predicate AllZero(s: string) { forall i :: 0 <= i < |s| ==> s[i] == '0' }

  predicate ValidTraceId(s: string) { |s| == 32 && AllHex(s) && !AllZero(s) }

  predicate ValidSpanId(s: string) { |s| == 16 && AllHex(s) && !AllZero(s) }

  function LowerChar(c: char): char { if 'A' <= c <= 'Z' then (c as int + 32) as char else c }

  /** No character outside ASCII lower-cases to a hexadecimal digit or a hyphen. */
  function Lower(s: string): string { seq(|s|, i requires 0 <= i < |s| => LowerChar(s[i])) }

  function Print(traceId: string, spanId: string): string { "00-" + traceId + "-" + spanId + "-01" }

  predicate Matches(s: string) {
    && |s| == 55
    && AllHex(s[..2]) && s[2] == '-' && AllHex(s[3..35]) && s[35] == '-' && AllHex(s[36..52])
    && s[52] == '-' && AllHex(s[53..])
  }

  function Parse(header: string): Option<TraceContext> {
    var s := Lower(Trim(header));
    if !Matches(s) then None
    else if AllZero(s[3..35]) || AllZero(s[36..52]) then None
    else Some(TraceContext(s[3..35], s[36..52]))
  }

  /** Whatever the header, parsed ids are valid. */
  lemma {:induction false} ParsedIsValid(header: string)
    requires Parse(header).Some?
    ensures ValidTraceId(Parse(header).value.traceId) && ValidSpanId(Parse(header).value.parentSpanId)
  {
  }

  lemma LowerNothing(s: string)
    requires forall i :: 0 <= i < |s| ==> !('A' <= s[i] <= 'Z')
    ensures Lower(s) == s
  {
  }

  /** The header carries a trace across exactly when both ids are valid. */
  lemma {:induction false} RoundTripExactly(traceId: string, spanId: string)
    ensures Parse(Print(traceId, spanId)) == Some(TraceContext(traceId, spanId)) <==>
            ValidTraceId(traceId) && ValidSpanId(spanId)
  {
    var s := Print(traceId, spanId);
    if ValidTraceId(traceId) && ValidSpanId(spanId) {
      assert s[..2] == "00" && s[3..35] == traceId && s[36..52] == spanId && s[53..] == "01";
      forall i | 0 <= i < |s|
        ensures !IsSpace(s[i]) && !('A' <= s[i] <= 'Z')
      {
        assert s[i] == '-' || s[i] == '0' || s[i] == '1' || s[i] in traceId || s[i] in spanId;
      }
      TrimNothing(s);
      LowerNothing(s);
    } else if Parse(s) == Some(TraceContext(traceId, spanId)) {
      ParsedIsValid(s);
    }
  }

  predicate AnyHex(s: string) {
    forall i :: 0 <= i < |s| ==> '0' <= s[i] <= '9' || 'a' <= s[i] <= 'f' || 'A' <= s[i] <= 'F'
  }

  /** Version, trace id, span id and flags, in whatever case. */
  predicate HasShape(version: string, traceId: string, spanId: string, flags: string) {
    && |version| == 2 && |traceId| == 32 && |spanId| == 16 && |flags| == 2
    && AnyHex(version) && AnyHex(traceId) && AnyHex(spanId) && AnyHex(flags)
  }

  function Header(version: string, traceId: string, spanId: string, flags: string): string {
    version + "-" + traceId + "-" + spanId + "-" + flags
  }

  lemma LowerHex(s: string)
    ensures AllHex(Lower(s)) <==> AnyHex(s)
    ensures AnyHex(s) ==> (AllZero(Lower(s)) <==> AllZero(s))
  {
    if AllHex(Lower(s)) {
      forall i | 0 <= i < |s| ensures '0' <= s[i] <= '9' || 'a' <= s[i] <= 'f' || 'A' <= s[i] <= 'F' {
        assert IsHex(Lower(s)[i]);
      }
    }
    if AllZero(Lower(s)) && AnyHex(s) {
      forall i | 0 <= i < |s| ensures s[i] == '0' { assert Lower(s)[i] == '0'; }
    }
  }

  lemma {:induction false} HeaderParts(version: string, traceId: string, spanId: string, flags: string)
    requires |version| == 2 && |traceId| == 32 && |spanId| == 16 && |flags| == 2
    ensures var s, h := Lower(Header(version, traceId, spanId, flags)), Header(version, traceId, spanId, flags);
            && |h| == |s| == 55 && h[0] == version[0] && h[54] == flags[1]
            && s[..2] == Lower(version) && s[2] == s[35] == s[52] == '-'
            && s[3..35] == Lower(traceId) && s[36..52] == Lower(spanId) && s[53..] == Lower(flags)
  {
  }

  /** Every header of the W3C shape is understood, whatever its version, its flags, its case and the
      space around it, unless one of its ids is all zeros. */
  lemma {:induction false} ShapedHeaderParses(before: string, version: string, traceId: string, spanId: string,
                                              flags: string, after: string)
    requires AllSpace(before) && AllSpace(after) && HasShape(version, traceId, spanId, flags)
    ensures Parse(before + Header(version, traceId, spanId, flags) + after)
         == if AllZero(traceId) || AllZero(spanId) then None else Some(TraceContext(Lower(traceId), Lower(spanId)))
  {
    hide Lower, Header, AllHex, AllZero, Trim;
    var h := Header(version, traceId, spanId, flags);
    HeaderParts(version, traceId, spanId, flags);
    assert !IsSpace(h[0]) && !IsSpace(h[54]);
    TrimPad(before, h, after);
    LowerHex(version);
    LowerHex(traceId);
    LowerHex(spanId);
    LowerHex(flags);
  }

  /** And no other header is. */
  lemma {:induction false} ParsedHeaderIsShaped(header: string)
    returns (before: string, version: string, traceId: string, spanId: string, flags: string, after: string)
    requires Parse(header).Some?
    ensures AllSpace(before) && AllSpace(after) && HasShape(version, traceId, spanId, flags)
    ensures header == before + Header(version, traceId, spanId, flags) + after
    ensures Parse(header) == Some(TraceContext(Lower(traceId), Lower(spanId)))
  {
    hide Trim, AllHex, AnyHex, AllZero;
    before, after := TrimTakes(header);
    var t := Trim(header);
    var s := Lower(t);
    version, traceId, spanId, flags := t[..2], t[3..35], t[36..52], t[53..];
    assert s[2] == '-' && s[35] == '-' && s[52] == '-';
    assert t[2] == '-' && t[35] == '-' && t[52] == '-';
    assert t == Header(version, traceId, spanId, flags);
    assert Lower(version) == s[..2] && Lower(traceId) == s[3..35] && Lower(spanId) == s[36..52] && Lower(flags) == s[53..];
    LowerHex(version);
    LowerHex(traceId);
    LowerHex(spanId);
    LowerHex(flags);
  }
}
