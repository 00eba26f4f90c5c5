/** The string operations that header parsing relies on. */
module Text {

  /** White space and line terminators, as `String.prototype.trim` removes them. */
  predicate IsSpace(c: char) {
    var n := c as int;
    9 <= n <= 13 || n in {32, 160, 0x1680, 0x2028, 0x2029, 0x202f, 0x205f, 0x3000, 0xfeff} || 0x2000 <= n <= 0x200a
  }

  function TrimStart(s: string): string { if s == "" || !IsSpace(s[0]) then s else TrimStart(s[1..]) }

  function TrimEnd(s: string): string { if s == "" || !IsSpace(s[|s| - 1]) then s else TrimEnd(s[..|s| - 1]) }

  function Trim(s: string): string { TrimEnd(TrimStart(s)) }

  predicate NoSpace(s: string) { forall i :: 0 <= i < |s| ==> !IsSpace(s[i]) }

  lemma {:induction false} TrimStartFacts(s: string)
    ensures TrimStart(s) == "" || !IsSpace(TrimStart(s)[0])
    ensures forall c :: c in TrimStart(s) ==> c in s
    decreases |s|
  {
    if s != "" && IsSpace(s[0]) { TrimStartFacts(s[1..]); }
  }

  lemma {:induction false} TrimEndFacts(s: string)
    ensures TrimEnd(s) == "" || !IsSpace(TrimEnd(s)[|TrimEnd(s)| - 1])
    ensures s != "" && !IsSpace(s[0]) ==> TrimEnd(s) != "" && TrimEnd(s)[0] == s[0]
    ensures forall c :: c in TrimEnd(s) ==> c in s
    decreases |s|
  {
    if s != "" && IsSpace(s[|s| - 1]) { TrimEndFacts(s[..|s| - 1]); }
  }

  lemma TrimFacts(s: string)
    ensures Trim(Trim(s)) == Trim(s)
    ensures forall c :: c in Trim(s) ==> c in s
  {
    TrimStartFacts(s);
    TrimEndFacts(TrimStart(s));
  }

  lemma TrimNothing(s: string)
    requires NoSpace(s)
    ensures Trim(s) == s
  {
  }

  predicate AllSpace(s: string) { forall i :: 0 <= i < |s| ==> IsSpace(s[i]) }

  lemma {:induction false} TrimStartPad(pre: string, s: string)
    requires AllSpace(pre) && (s == "" || !IsSpace(s[0]))
    ensures TrimStart(pre + s) == s
    decreases |pre|
  {
    hide IsSpace;
    if pre == "" {
      assert pre + s == s;
    } else {
      assert (pre + s)[0] == pre[0] && (pre + s)[1..] == pre[1..] + s;
      TrimStartPad(pre[1..], s);
    }
  }

  lemma {:induction false} TrimEndPad(s: string, post: string)
    requires AllSpace(post) && (s == "" || !IsSpace(s[|s| - 1]))
    ensures TrimEnd(s + post) == s
    decreases |post|
  {
    hide IsSpace;
    if post == "" {
      assert s + post == s;
    } else {
      var t := s + post;
      assert t[|t| - 1] == post[|post| - 1] && t[..|t| - 1] == s + post[..|post| - 1];
      TrimEndPad(s, post[..|post| - 1]);
    }
  }

  /** Trimming takes off what surrounds a text that neither begins nor ends with space. */
  lemma {:induction false} TrimPad(pre: string, s: string, post: string)
    requires AllSpace(pre) && AllSpace(post) && s != "" && !IsSpace(s[0]) && !IsSpace(s[|s| - 1])
    ensures Trim(pre + s + post) == s
  {
    hide IsSpace, TrimStart, TrimEnd;
    assert pre + s + post == pre + (s + post);
    TrimStartPad(pre, s + post);
    TrimEndPad(s, post);
  }

  /** And it takes off nothing but space. */
  lemma {:induction false} TrimTakes(s: string) returns (pre: string, post: string)
    ensures AllSpace(pre) && AllSpace(post) && s == pre + Trim(s) + post
  {
    hide IsSpace;
    pre := TrimStartTakes(s);
    post := TrimEndTakes(TrimStart(s));
  }

  lemma {:induction false} TrimStartTakes(s: string) returns (pre: string)
    ensures AllSpace(pre) && s == pre + TrimStart(s)
    decreases |s|
  {
    hide IsSpace;
    pre := "";
    if s != "" && IsSpace(s[0]) {
      pre := TrimStartTakes(s[1..]);
      pre := [s[0]] + pre;
    }
  }

  lemma {:induction false} TrimEndTakes(s: string) returns (post: string)
    ensures AllSpace(post) && s == TrimEnd(s) + post
    decreases |s|
  {
    hide IsSpace;
    post := "";
    if s != "" && IsSpace(s[|s| - 1]) {
      post := TrimEndTakes(s[..|s| - 1]);
      post := post + [s[|s| - 1]];
    }
  }

  function Split(s: string, sep: char): (parts: seq<string>)
    ensures |parts| >= 1
  {
    if s == "" then [""]
    else
      var rest := Split(s[1..], sep);
      if s[0] == sep then [""] + rest else [[s[0]] + rest[0]] + rest[1..]
  }

  function Join(parts: seq<string>, sep: char): string {
    if parts == [] then "" else if |parts| == 1 then parts[0] else parts[0] + [sep] + Join(parts[1..], sep)
  }

  ghost predicate Without(parts: seq<string>, sep: char) {
    forall i :: 0 <= i < |parts| ==> sep !in parts[i]
  }

  lemma {:induction false} SplitWithout(s: string, sep: char)
    ensures Without(Split(s, sep), sep)
    decreases |s|
  {
    if s != "" { SplitWithout(s[1..], sep); }
  }

  lemma {:induction false} SplitOne(p: string, sep: char)
    requires sep !in p
    ensures Split(p, sep) == [p]
    decreases |p|
  {
    if p != "" {
      SplitOne(p[1..], sep);
      assert p == [p[0]] + p[1..];
    }
  }

  lemma {:induction false} SplitFirst(p: string, sep: char, rest: string)
    requires sep !in p
    ensures Split(p + [sep] + rest, sep) == [p] + Split(rest, sep)
    decreases |p|
  {
    var s := p + [sep] + rest;
    if p == "" {
      assert s[1..] == rest;
    } else {
      SplitFirst(p[1..], sep, rest);
      assert s[1..] == p[1..] + [sep] + rest;
      assert p == [p[0]] + p[1..];
    }
  }

  /** Splitting undoes joining, as long as no part contains the separator. */
  lemma {:induction false} SplitJoin(parts: seq<string>, sep: char)
    requires parts != [] && Without(parts, sep)
    ensures Split(Join(parts, sep), sep) == parts
    decreases |parts|
  {
    if |parts| == 1 {
      SplitOne(parts[0], sep);
    } else {
      SplitJoin(parts[1..], sep);
      SplitFirst(parts[0], sep, Join(parts[1..], sep));
      assert parts == [parts[0]] + parts[1..];
    }
  }
}
