/**
 * The scanner of hub.go:624-806, which finds the trace, the service and the level in a JSON object without parsing it.
 * Functions on suffixes say what each loop finds in any bytes at all.
 */
module JsonScan {
  import opened Bytes
  import opened Results

  const QUOTE: byte := '"' as int
  const BACKSLASH: byte := '\\' as int
  const COLON: byte := ':' as int
  const COMMA: byte := ',' as int
  const LBRACE: byte := '{' as int
  const RBRACE: byte := '}' as int
  const LBRACKET: byte := '[' as int
  const RBRACKET: byte := ']' as int

  type Text = seq<byte>

  /** The bytes of a text that holds nothing beyond ASCII. */
  function Ascii(s: string): (t: Text)
    requires forall i :: 0 <= i < |s| ==> s[i] < 128 as char
    ensures |t| == |s| && forall i :: 0 <= i < |s| ==> t[i] == s[i] as int
  {
    seq(|s|, i requires 0 <= i < |s| => s[i] as int)
  }

  const TRACE_ID: Text := Ascii("trace_id")
  const TRACE_ID_CAMEL: Text := Ascii("traceId")
  const SERVICE: Text := Ascii("service")
  const LEVEL: Text := Ascii("level")
  const SEVERITY: Text := Ascii("severity")
  const INFO: Text := Ascii("INFO")

  predicate IsSpace(c: byte) {
    c == ' ' as int || c == '\t' as int || c == '\n' as int || c == '\r' as int
  }

  predicate Opens(c: byte) {
    c == LBRACE || c == LBRACKET
  }

  predicate Closes(c: byte) {
    c == RBRACE || c == RBRACKET
  }

  predicate EndsScalar(c: byte) {
    c == COMMA || Closes(c) || IsSpace(c)
  }

  // ----- What the loops find at the front of `s`.

  function DropSpace(s: Text): Text {
    if s != [] && IsSpace(s[0]) then DropSpace(s[1..]) else s
  }

  function DropScalar(s: Text): Text {
    if s != [] && !EndsScalar(s[0]) then DropScalar(s[1..]) else s
  }

  /** `n` more than `r`, when `r` is a length at all. */
  function Plus(n: nat, r: int): int {
    if r < 0 then -1 else n + r
  }

  /** How far the first quote is that no backslash escapes; -1 when there is none. */
  function QuoteAt(s: Text): (n: int)
    ensures -1 <= n < |s| || n == -1
    ensures n >= 0 ==> s[n] == QUOTE
  {
    if s == [] then -1
    else if s[0] == BACKSLASH then if |s| < 2 then -1 else Plus(2, QuoteAt(s[2..]))
    else if s[0] == QUOTE then 0
    else Plus(1, QuoteAt(s[1..]))
  }

  /** How long the rest of a container is whose brackets stand `depth` deep; -1 when it does not end. */
  function ContainerLength(s: Text, depth: int): (n: int)
    ensures n == -1 || 0 < n <= |s|
    decreases |s|
  {
    if s == [] then -1
    else if s[0] == QUOTE then
      var n := QuoteAt(s[1..]);
      if n < 0 then -1 else Plus(n + 2, ContainerLength(s[n + 2..], depth))
    else if Opens(s[0]) then Plus(1, ContainerLength(s[1..], depth + 1))
    else if Closes(s[0]) then if depth == 1 then 1 else Plus(1, ContainerLength(s[1..], depth - 1))
    else Plus(1, ContainerLength(s[1..], depth))
  }

  /** What the scan has seen of the five keys, "" for what it has not. */
  datatype Fields = Fields(snake: Text, camel: Text, service: Text, level: Text, severity: Text) {
    function Put(key: Text, value: Text): Fields {
      if key == TRACE_ID then this.(snake := value)
      else if key == TRACE_ID_CAMEL then this.(camel := value)
      else if key == SERVICE then this.(service := value)
      else if key == LEVEL then this.(level := value)
      else if key == SEVERITY then this.(severity := value)
      else this
    }
  }

  const NOTHING := Fields([], [], [], [], [])

  datatype Meta = Meta(traceID: Text, service: Text, level: Text)

  function FirstNonEmpty(a: Text, b: Text): Text {
    if a != [] then a else b
  }

  function Answer(f: Fields): Meta {
    Meta(FirstNonEmpty(f.snake, f.camel), f.service, FirstNonEmpty(f.level, f.severity))
  }

  /** Go's strconv.Unquote on a quoted text, which the scanner only applies. */
  type Unquote = Text -> Option<Text>

  /** What a string with the raw content `raw` stands for. */
  function Value(raw: Text, unquote: Unquote): Text {
    if BACKSLASH !in raw then raw
    else
      match unquote([QUOTE] + raw + [QUOTE])
      case Some(t) => t
      case None => raw
  }

  /** The text after the value of a member: spaces are dropped, and one comma. */
  function Next(s: Text): (r: Text)
    ensures |r| <= |s|
  {
    DropSpaceLength(s);
    var t := DropSpace(s);
    if t != [] && t[0] == COMMA then t[1..] else t
  }

  lemma {:induction false} DropSpaceLength(s: Text)
    ensures |DropSpace(s)| <= |s|
    ensures DropSpace(s) != [] ==> !IsSpace(DropSpace(s)[0])
  {
    if s != [] && IsSpace(s[0]) {
      DropSpaceLength(s[1..]);
    }
  }

  lemma {:induction false} DropScalarLength(s: Text)
    ensures |DropScalar(s)| <= |s|
  {
    if s != [] && !EndsScalar(s[0]) {
      DropScalarLength(s[1..]);
    }
  }

  /** The members at the front of `s`, up to the first thing that is not one. */
  function Members(s: Text, f: Fields, unquote: Unquote): Fields
    decreases |s|, 0
  {
    DropSpaceLength(s);
    var s1 := DropSpace(s);
    if s1 == [] || s1[0] != QUOTE || QuoteAt(s1[1..]) < 0 then f
    else
      var n := QuoteAt(s1[1..]);
      DropSpaceLength(s1[n + 2..]);
      var s2 := DropSpace(s1[n + 2..]);
      if s2 == [] || s2[0] != COLON then f
      else
        DropSpaceLength(s2[1..]);
        AfterValue(DropSpace(s2[1..]), s1[1..][..n], f, unquote)
  }

  /** ... and from the value of one of them on. */
  function AfterValue(s: Text, key: Text, f: Fields, unquote: Unquote): Fields
    decreases |s|, 1
  {
    if s == [] then f
    else if s[0] == QUOTE then
      var n := QuoteAt(s[1..]);
      if n < 0 then f
      else Members(Next(s[n + 2..]), f.Put(key, Value(s[1..][..n], unquote)), unquote)
    else if Opens(s[0]) then
      var n := ContainerLength(s, 0);
      if n < 0 then f else Members(Next(s[n..]), f, unquote)
    else
      DropScalarLength(s);
      Members(Next(DropScalar(s)), f, unquote)
  }

  // ----- The loops.

  method SkipWS(b: Text, start: nat) returns (i: nat)
    requires start <= |b|
    ensures start <= i <= |b| && b[i..] == DropSpace(b[start..])
  {
    i := start;
    while i < |b|
      invariant start <= i <= |b| && DropSpace(b[i..]) == DropSpace(b[start..])
    {
      if !IsSpace(b[i]) {
        return;
      }
      assert b[i..][1..] == b[i + 1..];
      i := i + 1;
    }
  }

  method SkipScalar(b: Text, start: nat) returns (i: nat)
    requires start <= |b|
    ensures start <= i <= |b| && b[i..] == DropScalar(b[start..])
  {
    i := start;
    while i < |b|
      invariant start <= i <= |b| && DropScalar(b[i..]) == DropScalar(b[start..])
    {
      if EndsScalar(b[i]) {
        return;
      }
      assert b[i..][1..] == b[i + 1..];
      i := i + 1;
    }
  }

  /** Finds the string whose opening quote is at `at`: its content, what follows it, and whether it holds escapes. */
  method ScanString(b: Text, at: nat) returns (start: nat, end: nat, next: nat, hasEscape: bool, ok: bool)
    requires at < |b|
    ensures ok <==> QuoteAt(b[at + 1..]) >= 0
    ensures ok ==>
              && start == at + 1 && end == start + QuoteAt(b[at + 1..]) && next == end + 1 <= |b|
              && (hasEscape <==> BACKSLASH in b[start..end])
  {
    var i := at + 1;
    start, hasEscape := i, false;
    while i < |b|
      invariant start <= i
      invariant i <= |b| ==> QuoteAt(b[start..]) == Plus(i - start, QuoteAt(b[i..]))
      invariant i > |b| ==> QuoteAt(b[start..]) == -1
      invariant i <= |b| ==> (hasEscape <==> BACKSLASH in b[start..i])
    {
      ScanStringStep(b, start, i);
      if b[i] == BACKSLASH {
        hasEscape := true;
        i := i + 2;
      } else if b[i] == QUOTE {
        return start, i, i + 1, hasEscape, true;
      } else {
        i := i + 1;
      }
    }
    return 0, 0, i, false, false;
  }

  lemma ScanStringStep(b: Text, start: nat, i: nat)
    requires start <= i < |b|
    ensures b[i..][0] == b[i] && b[i..][1..] == b[i + 1..] && (i + 2 <= |b| ==> b[i..][2..] == b[i + 2..])
    ensures b[start..i + 1] == b[start..i] + [b[i]]
    ensures i + 2 <= |b| ==> b[start..i + 2] == b[start..i] + [b[i], b[i + 1]]
    ensures QuoteAt(b[|b|..]) == -1
  {
  }

  /** Finds the end of the object or array that starts at `at`; -1 when it does not end. */
  method SkipContainer(b: Text, at: nat) returns (r: int)
    requires at <= |b|
    ensures r == if ContainerLength(b[at..], 0) < 0 then -1 else at + ContainerLength(b[at..], 0)
  {
    hide ContainerLength, QuoteAt;
    var depth, i := 0, at;
    while i < |b|
      invariant at <= i <= |b|
      invariant ContainerLength(b[at..], 0) == Plus(i - at, ContainerLength(b[i..], depth))
    {
      ContainerStep(b, i, depth);
      if b[i] == QUOTE {
        var start, end, next, hasEscape, ok := ScanString(b, i);
        if !ok {
          return -1;
        }
        i := next;
      } else if Opens(b[i]) {
        depth := depth + 1;
        i := i + 1;
      } else if Closes(b[i]) {
        depth := depth - 1;
        i := i + 1;
        if depth == 0 {
          return i;
        }
      } else {
        i := i + 1;
      }
    }
    NoContainer(b, depth);
    return -1;
  }

  lemma NoContainer(b: Text, depth: int)
    ensures ContainerLength(b[|b|..], depth) == -1
  {
  }

  lemma ContainerStep(b: Text, i: nat, depth: int)
    requires i < |b|
    ensures var n := QuoteAt(b[i + 1..]);
      && i + 1 + n < |b|
      && ContainerLength(b[i..], depth) ==
           if b[i] == QUOTE then if n < 0 then -1 else Plus(n + 2, ContainerLength(b[i + n + 2..], depth))
           else if Opens(b[i]) then Plus(1, ContainerLength(b[i + 1..], depth + 1))
           else if !Closes(b[i]) then Plus(1, ContainerLength(b[i + 1..], depth))
           else if depth == 1 then 1 else Plus(1, ContainerLength(b[i + 1..], depth - 1))
  {
    assert b[i..][1..] == b[i + 1..];
    var n := QuoteAt(b[i + 1..]);
    if n >= 0 {
      assert b[i..][n + 2..] == b[i + n + 2..];
    }
  }

  function MaterializeString(b: Text, start: nat, end: nat, hasEscape: bool, unquote: Unquote): (r: Text)
    requires 1 <= start <= end < |b| && b[start - 1] == b[end] == QUOTE
    ensures (hasEscape <==> BACKSLASH in b[start..end]) ==> r == Value(b[start..end], unquote)
    ensures !hasEscape || unquote(b[start - 1..end + 1]).None? ==> r == b[start..end]
    ensures hasEscape && unquote(b[start - 1..end + 1]).Some? ==> Some(r) == unquote(b[start - 1..end + 1])
  {
    if !hasEscape then b[start..end]
    else
      assert b[start - 1..end + 1] == [QUOTE] + b[start..end] + [QUOTE];
      match unquote(b[start - 1..end + 1])
      case Some(t) => t
      case None => b[start..end]
  }

  /** The first half of the loop: from a member on, its key and the place of its value. */
  method ScanKey(b: Text, from: nat, ghost f: Fields, ghost unquote: Unquote) returns (more: bool, key: Text, i: nat)
    requires from < |b|
    ensures !more ==> Members(b[from..], f, unquote) == f
    ensures more ==> from < i < |b| && Members(b[from..], f, unquote) == AfterValue(b[i..], key, f, unquote)
  {
    hide DropSpace, QuoteAt, Members, AfterValue, Fields.Put;
    key := [];
    i := SkipWS(b, from);
    NoMember(b, from, i, f, unquote);
    if i >= |b| || b[i] == RBRACE || b[i] != QUOTE {
      return false, [], i;
    }
    var ks, ke, ki, esc, ok := ScanString(b, i);
    if !ok {
      return false, [], i;
    }
    i := SkipWS(b, ki);
    NoColon(b, from, ks, ke, i, f, unquote);
    if i >= |b| || b[i] != COLON {
      return false, [], i;
    }
    var colon := i;
    i := SkipWS(b, i + 1);
    KeyRead(b, from, ks, ke, colon, i, f, unquote);
    return i < |b|, b[ks..ke], i;
  }

  /** The second half: the value, and the comma behind it. */
  method ScanValue(b: Text, at: nat, key: Text, f: Fields, unquote: Unquote) returns (more: bool, g: Fields, i: nat)
    requires at < |b|
    ensures !more ==> g == AfterValue(b[at..], key, f, unquote)
    ensures more ==> at <= i <= |b| && Members(b[i..], g, unquote) == AfterValue(b[at..], key, f, unquote)
  {
    hide DropSpace, DropScalar, QuoteAt, ContainerLength, Value, Members, AfterValue, Next, Fields.Put;
    i, g := at, f;
    if b[i] == QUOTE {
      var vs, ve, vi, esc, ok := ScanString(b, i);
      StringRead(b, at, key, f, unquote);
      if !ok {
        return false, f, i;
      }
      g := f.Put(key, MaterializeString(b, vs, ve, esc, unquote));
      i := vi;
    } else if Opens(b[i]) {
      var j := SkipContainer(b, i);
      ContainerRead(b, at, key, f, unquote);
      if j < 0 {
        return false, f, i;
      }
      i := j;
    } else {
      i := SkipScalar(b, i);
      ScalarRead(b, at, i, key, f, unquote);
    }
    var end := i;
    i := SkipWS(b, i);
    NextAt(b, end, i);
    if i < |b| && b[i] == COMMA {
      i := i + 1;
    }
    more := true;
  }

  /** The scan of the text behind the opening brace `b[0]`. */
  method ScanTopLevelMeta(b: Text, unquote: Unquote) returns (r: Meta)
    requires |b| >= 1
    ensures r == Answer(Members(b[1..], NOTHING, unquote))
  {
    hide *;
    var f := NOTHING;
    var i := 1;
    while i < |b|
      invariant 1 <= i <= |b|
      invariant Members(b[1..], NOTHING, unquote) == Members(b[i..], f, unquote)
    {
      var more, key, at := ScanKey(b, i, f, unquote);
      if !more {
        return Answer(f);
      }
      more, f, i := ScanValue(b, at, key, f, unquote);
      if !more {
        return Answer(f);
      }
    }
    NoMember(b, i, i, f, unquote);
    r := Answer(f);
  }

  /** Without an opening quote, or a closing one, there is no member. */
  lemma NoMember(b: Text, from: nat, i: nat, f: Fields, unquote: Unquote)
    requires from <= |b| && i <= |b| && (b[i..] == DropSpace(b[from..]) || from == i == |b|)
    ensures i == |b| || b[i] != QUOTE || QuoteAt(b[i + 1..]) < 0 ==> Members(b[from..], f, unquote) == f
  {
    hide DropSpace, QuoteAt, AfterValue;
    assert i < |b| ==> b[i..][1..] == b[i + 1..];
    if from == |b| {
      NoSpace(b);
    }
  }

  lemma NoSpace(b: Text)
    ensures DropSpace(b[|b|..]) == []
  {
  }

  /** A key has been read at `[ks, ke)` and its colon looked for at `i`. */
  ghost predicate KeyAt(b: Text, from: nat, ks: nat, ke: nat, i: nat) {
    && from < ks <= ke < |b| && ke < i <= |b|
    && b[ks - 1..] == DropSpace(b[from..]) && b[ks - 1] == QUOTE && ke - ks == QuoteAt(b[ks..])
    && b[i..] == DropSpace(b[ke + 1..])
  }

  lemma NoColon(b: Text, from: nat, ks: nat, ke: nat, i: nat, f: Fields, unquote: Unquote)
    requires KeyAt(b, from, ks, ke, i)
    ensures i == |b| || b[i] != COLON ==> Members(b[from..], f, unquote) == f
  {
    hide DropSpace, QuoteAt, AfterValue;
    KeySlices(b, ks, ke);
  }

  lemma KeySlices(b: Text, ks: nat, ke: nat)
    requires 1 <= ks <= ke < |b|
    ensures b[ks - 1..][1..] == b[ks..] && b[ks - 1..][ke - ks + 2..] == b[ke + 1..] && b[ks..][..ke - ks] == b[ks..ke]
  {
  }

  lemma KeyRead(b: Text, from: nat, ks: nat, ke: nat, colon: nat, i: nat, f: Fields, unquote: Unquote)
    requires KeyAt(b, from, ks, ke, colon) && colon < |b| && b[colon] == COLON
    requires colon < i <= |b| && b[i..] == DropSpace(b[colon + 1..])
    ensures Members(b[from..], f, unquote) == AfterValue(b[i..], b[ks..ke], f, unquote)
    ensures i == |b| ==> Members(b[from..], f, unquote) == f
  {
    hide DropSpace, QuoteAt, AfterValue;
    KeySlices(b, ks, ke);
    assert b[colon..][1..] == b[colon + 1..];
    NoValue(b[ks..ke], f, unquote);
  }

  lemma NoValue(key: Text, f: Fields, unquote: Unquote)
    ensures AfterValue([], key, f, unquote) == f
  {
  }

  lemma StringRead(b: Text, i: nat, key: Text, f: Fields, unquote: Unquote)
    requires i < |b| && b[i] == QUOTE
    ensures var n := QuoteAt(b[i + 1..]);
      && i + 1 + n < |b| && (n >= 0 ==> b[i + 1 + n] == QUOTE)
      && AfterValue(b[i..], key, f, unquote) ==
           if n < 0 then f
           else Members(Next(b[i + n + 2..]), f.Put(key, Value(b[i + 1..i + 1 + n], unquote)), unquote)
  {
    hide Members, QuoteAt, Next, Value, Fields.Put;
    var n := QuoteAt(b[i + 1..]);
    assert b[i..][1..] == b[i + 1..];
    if n >= 0 {
      assert b[i..][n + 2..] == b[i + n + 2..] && b[i + 1..][..n] == b[i + 1..i + 1 + n];
    }
  }

  lemma ContainerRead(b: Text, i: nat, key: Text, f: Fields, unquote: Unquote)
    requires i < |b| && b[i] != QUOTE && Opens(b[i])
    ensures var n := ContainerLength(b[i..], 0);
      && i + n <= |b| && (n >= 0 ==> n > 0)
      && AfterValue(b[i..], key, f, unquote) == if n < 0 then f else Members(Next(b[i + n..]), f, unquote)
  {
    hide Members, ContainerLength, Next;
    var n := ContainerLength(b[i..], 0);
    if n >= 0 {
      assert b[i..][n..] == b[i + n..];
    }
  }

  lemma ScalarRead(b: Text, i: nat, j: nat, key: Text, f: Fields, unquote: Unquote)
    requires i < |b| && b[i] != QUOTE && !Opens(b[i]) && j <= |b| && b[j..] == DropScalar(b[i..])
    ensures AfterValue(b[i..], key, f, unquote) == Members(Next(b[j..]), f, unquote)
  {
    hide Members, DropScalar, Next;
  }

  lemma NextAt(b: Text, end: nat, i: nat)
    requires end <= |b| && i <= |b| && b[i..] == DropSpace(b[end..])
    ensures Next(b[end..]) == if i < |b| && b[i] == COMMA then b[i + 1..] else b[i..]
  {
    hide DropSpace;
    assert i < |b| ==> b[i..][1..] == b[i + 1..];
  }
}
