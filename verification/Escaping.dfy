/** String values in configuration files: quoting when they are written, and the
    removal of the quoting, in place, when they are read. */
module Escaping {

  predicate Special(c: char) { c == '"' || c == '\\' }

  const NUL: char := '\0'

  /** The text with a backslash before every quote and backslash. */
  function EscapeBody(s: string): string {
    if s == [] then []
    else (if Special(s[0]) then ['\\', s[0]] else [s[0]]) + EscapeBody(s[1..])
  }

  function Escape(s: string): string { ['"'] + EscapeBody(s) + ['"'] }

  function Specials(s: string): nat {
    if s == [] then 0 else (if Special(s[0]) then 1 else 0) + Specials(s[1..])
  }

  lemma {:induction false} EscapeBodyAppend(a: string, b: string)
    ensures EscapeBody(a + b) == EscapeBody(a) + EscapeBody(b)
    ensures Specials(a + b) == Specials(a) + Specials(b)
  {
    if a == [] { assert a + b == b; }
    else {
      assert (a + b)[1..] == a[1..] + b;
      EscapeBodyAppend(a[1..], b);
    }
  }

  lemma {:induction false} EscapeBodyLength(s: string)
    ensures |EscapeBody(s)| == |s| + Specials(s)
  {
    if s != [] { EscapeBodyLength(s[1..]); }
  }

  lemma {:induction false} EscapeBodyPlain(s: string)
    requires forall i :: 0 <= i < |s| ==> !Special(s[i])
    ensures EscapeBody(s) == s && Specials(s) == 0
  {
    if s != [] { EscapeBodyPlain(s[1..]); }
  }

  /** `strcspn(p, "\\"\\\\")` from position `i` */
  function SpanEnd(s: string, i: nat): (j: nat)
    requires i <= |s|
    ensures i <= j <= |s|
    ensures forall k :: i <= k < j ==> !Special(s[k])
    ensures j < |s| ==> Special(s[j])
    decreases |s| - i
  {
    if i < |s| && !Special(s[i]) then SpanEnd(s, i + 1) else i
  }

  lemma EscapeSpan(s: string, i: nat)
    requires i <= |s|
    ensures var j := SpanEnd(s, i);
            && EscapeBody(s[..j]) == EscapeBody(s[..i]) + s[i..j]
            && Specials(s[..j]) == Specials(s[..i])
            && (j < |s| ==> EscapeBody(s[..j + 1]) == EscapeBody(s[..j]) + ['\\', s[j]] && Specials(s[..j + 1]) == Specials(s[..j]) + 1)
  {
    var j := SpanEnd(s, i);
    assert s[..j] == s[..i] + s[i..j];
    EscapeBodyAppend(s[..i], s[i..j]);
    EscapeBodyPlain(s[i..j]);
    if j < |s| {
      assert s[..j + 1] == s[..j] + [s[j]];
      EscapeBodyAppend(s[..j], [s[j]]);
      assert EscapeBody([s[j]]) == ['\\', s[j]] + EscapeBody([]);
    }
  }

  /** The first pass of `escape_string_value`. */
  method EscapedSize(s: string) returns (size: nat)
    ensures size == |s| + 3 + Specials(s)
  {
    size := |s| + 2 + 1;
    var p := 0;
    while true
      invariant 0 <= p <= |s| && size == |s| + 3 + Specials(s[..p])
      decreases |s| - p
    {
      EscapeSpan(s, p);
      p := SpanEnd(s, p);
      if p == |s| { break; }
      size := size + 1;
      p := p + 1;
    }
    assert s[..p] == s;
  }

  /** `escape_string_value`: the first pass counts exactly the bytes, with the NUL,
      that the second pass writes. */
  method EscapeStringValue(s: string) returns (out: string, size: nat)
    ensures out == Escape(s)
    ensures size == |out| + 1
  {
    size := EscapedSize(s);
    out := ['"'];
    var p := 0;
    while true
      invariant 0 <= p <= |s| && out == ['"'] + EscapeBody(s[..p])
      decreases |s| - p
    {
      EscapeSpan(s, p);
      var end := SpanEnd(s, p);
      assert out + s[p..end] == ['"'] + (EscapeBody(s[..p]) + s[p..end]);
      out := out + s[p..end];
      p := end;
      if p == |s| { break; }
      assert (out + ['\\']) + [s[p]] == ['"'] + (EscapeBody(s[..p]) + ['\\', s[p]]);
      out := out + ['\\'];
      out := out + [s[p]];
      p := p + 1;
    }
    assert s[..p] == s;
    out := out + ['"'];
    EscapeBodyLength(s);
  }

  /* ----- reading ----- */

  /** The text after an opening quote is closed by a quote, or it is not. */
  datatype Scanned = Closed(text: string) | Open

  function Prepend(t: string, r: Scanned): Scanned { if r.Closed? then Closed(t + r.text) else r }

  function Unescape(s: string): Scanned {
    if s == [] then Open
    else if s[0] == '"' then Closed([])
    else if s[0] == '\\' then (if |s| == 1 then Open else Prepend([s[1]], Unescape(s[2..])))
    else Prepend([s[0]], Unescape(s[1..]))
  }

  lemma PrependTwice(a: string, b: string, r: Scanned)
    ensures Prepend(a, Prepend(b, r)) == Prepend(a + b, r)
  {
    if r.Closed? { assert a + (b + r.text) == (a + b) + r.text; }
  }

  /** Reading what was written gives the text back, whatever follows the quote. */
  lemma {:induction false} RoundTrip(s: string, rest: string)
    ensures Unescape(EscapeBody(s) + ['"'] + rest) == Closed(s)
  {
    var t := EscapeBody(s) + ['"'] + rest;
    if s != [] {
      var u := EscapeBody(s[1..]) + ['"'] + rest;
      RoundTrip(s[1..], rest);
      if Special(s[0]) { assert t[2..] == u && t[0] == '\\' && t[1] == s[0]; }
      else { assert t[1..] == u && t[0] == s[0]; }
      assert [s[0]] + s[1..] == s;
    }
  }

  /** `a` holds the C string `t` at `p`. */
  ghost predicate HoldsAt(a: array<char>, p: nat, t: string)
    reads a
  {
    p + |t| < a.Length && a[p..p + |t|] == t && a[p + |t|] == NUL && forall i :: 0 <= i < |t| ==> t[i] != NUL
  }

  /** The end of the string at `q`, which is `strlen` further on. */
  method FindNul(a: array<char>, q: nat, ghost t: string) returns (m: nat)
    requires HoldsAt(a, q, t)
    ensures m == q + |t|
  {
    m := q;
    assert forall k :: q <= k < q + |t| ==> a[k] == t[k - q];
    while a[m] != NUL
      invariant q <= m <= q + |t|
      decreases q + |t| - m
    {
      m := m + 1;
    }
  }

  /** `memmove(p2, p2 + 1, strlen(p2))`: the string from `q` goes down by one, with a copy
      of its NUL, which itself stays at `m` like all that follows. */
  method MoveDown(a: array<char>, q: nat, m: nat)
    requires q < m < a.Length
    modifies a
    ensures a[..q] == old(a[..q]) && a[q..m] == old(a[q + 1..m + 1]) && a[m..] == old(a[m..])
  {
    var i := q;
    while i < m
      invariant q <= i <= m
      invariant a[..q] == old(a[..q])
      invariant forall k :: q <= k < i ==> a[k] == old(a[k + 1])
      invariant forall k :: i <= k < a.Length ==> a[k] == old(a[k])
    {
      a[i] := a[i + 1];
      i := i + 1;
    }
  }

  /** What stands in the place of a backslash that was removed: the character after it,
      or the NUL if there was none. */
  function Escaped(todo: string): char
    requires todo != []
  {
    if |todo| > 1 then todo[1] else NUL
  }

  function AfterEscaped(todo: string): string
    requires todo != []
  {
    if |todo| > 1 then todo[2..] else []
  }

  /** A backslash is removed, which leaves the character after it in its place. */
  method DropBackslash(a: array<char>, p: nat, q: nat, ghost done: string, ghost todo: string)
    requires p <= q < a.Length && a[p..q] == done && HoldsAt(a, q, todo) && todo != []
    modifies a
    ensures a[..p] == old(a[..p]) && a[p..q + 1] == done + [Escaped(todo)] && HoldsAt(a, q + 1, AfterEscaped(todo))
  {
    var m := FindNul(a, q, todo);
    MoveDown(a, q, m);
    assert a[..p] == a[..q][..p] && a[p..q] == a[..q][p..];
    assert a[q..m] == todo[1..] + [NUL];
    assert a[q] == a[q..m][0];
    if |todo| > 1 {
      assert a[q + 1..m - 1] == a[q..m][1..|todo| - 1] == todo[2..];
      assert a[m - 1] == a[q..m][|todo| - 1];
    } else {
      assert a[m] == a[m..][0];
    }
  }

  /** From `p`, the buffer holds the text done and then the string to do; while there is
      something to do, the text done has no NUL. */
  ghost predicate Underway(a: array<char>, p: nat, q: nat, done: string, todo: string)
    reads a
  {
    && p <= q < a.Length && a[p..q] == done && HoldsAt(a, q, todo)
    && forall i :: 0 <= i < |done| && todo != [] ==> done[i] != NUL
  }

  /** An ordinary character stays where it is. */
  lemma StepOver(a: array<char>, p: nat, q: nat, done: string, todo: string)
    requires Underway(a, p, q, done, todo) && todo != []
    ensures Underway(a, p, q + 1, done + [todo[0]], todo[1..])
  {
    assert a[q] == a[q..q + |todo|][0];
    assert a[q + 1..q + |todo|] == a[q..q + |todo|][1..];
  }

  /** A backslash goes. */
  method StepEscaped(a: array<char>, p: nat, q: nat, ghost done: string, ghost todo: string)
    requires Underway(a, p, q, done, todo) && todo != []
    modifies a
    ensures Underway(a, p, q + 1, done + [Escaped(todo)], AfterEscaped(todo)) && a[..p] == old(a[..p])
  {
    DropBackslash(a, p, q, done, todo);
  }

  /** The string that started at `p` now ends at `q`. */
  method EndHere(a: array<char>, p: nat, q: nat, ghost done: string)
    requires p <= q < a.Length && a[p..q] == done && forall i :: 0 <= i < |done| ==> done[i] != NUL
    modifies a
    ensures HoldsAt(a, p, done) && a[..p] == old(a[..p])
  {
    a[q] := NUL;
  }

  lemma PlainStep(s: string, done: string, todo: string)
    requires Unescape(s) == Prepend(done, Unescape(todo)) && todo != [] && !Special(todo[0])
    ensures Unescape(s) == Prepend(done + [todo[0]], Unescape(todo[1..]))
  {
    PrependTwice(done, [todo[0]], Unescape(todo[1..]));
  }

  lemma EscapedStep(s: string, done: string, todo: string)
    requires Unescape(s) == Prepend(done, Unescape(todo)) && todo != [] && todo[0] == '\\'
    ensures Unescape(s) == Prepend(done + [Escaped(todo)], Unescape(AfterEscaped(todo)))
  {
    PrependTwice(done, [Escaped(todo)], Unescape(AfterEscaped(todo)));
  }

  lemma FirstChar(a: array<char>, q: nat, todo: string)
    requires HoldsAt(a, q, todo)
    ensures a[q] == NUL <==> todo == []
    ensures todo != [] ==> todo[0] == a[q]
  {
    if todo != [] { assert a[q] == a[q..q + |todo|][0]; }
  }

  /** The text done, and what the rest unescapes to, make up the whole. */
  predicate Reads(s: string, done: string, todo: string) { Unescape(s) == Prepend(done, Unescape(todo)) }

  lemma ReadsStart(s: string)
    ensures Reads(s, [], s)
  {
    if Unescape(s).Closed? { assert [] + Unescape(s).text == Unescape(s).text; }
  }

  lemma ReadsEnd(s: string, done: string, todo: string)
    requires Reads(s, done, todo)
    ensures todo == [] ==> Unescape(s) == Open
    ensures todo != [] && todo[0] == '"' ==> Unescape(s) == Closed(done)
  {
    assert done + [] == done;
  }

  /** One character, with a backslash before it or not. */
  method Advance(a: array<char>, p: nat, q: nat, ghost s: string, ghost done: string, ghost todo: string)
    returns (ghost done': string, ghost todo': string)
    requires Underway(a, p, q, done, todo) && Reads(s, done, todo)
    requires a[q] != NUL && a[q] != '"'
    modifies a
    ensures Underway(a, p, q + 1, done', todo') && Reads(s, done', todo') && |todo'| < |todo|
    ensures a[..p] == old(a[..p])
  {
    FirstChar(a, q, todo);
    if a[q] == '\\' {
      EscapedStep(s, done, todo);
      StepEscaped(a, p, q, done, todo);
      done', todo' := done + [Escaped(todo)], AfterEscaped(todo);
    } else {
      PlainStep(s, done, todo);
      StepOver(a, p, q, done, todo);
      done', todo' := done + [todo[0]], todo[1..];
    }
  }

  /** The loop of `conf_set_sym_val` over the text after the opening quote: in place,
      backslashes go, and the closing quote becomes the end of the string.  Text that is
      not closed, a lone backslash at its end included, is reported. */
  method UnescapeInPlace(a: array<char>, p: nat, ghost s: string) returns (ok: bool)
    requires HoldsAt(a, p, s)
    modifies a
    ensures ok == Unescape(s).Closed?
    ensures ok ==> HoldsAt(a, p, Unescape(s).text)
    ensures a[..p] == old(a[..p])
  {
    var q: nat := p;
    ghost var done, todo := [], s;
    ReadsStart(s);
    assert a[p..q] == done;
    while true
      invariant Underway(a, p, q, done, todo) && Reads(s, done, todo)
      invariant a[..p] == old(a[..p])
      decreases |todo|
    {
      FirstChar(a, q, todo);
      ReadsEnd(s, done, todo);
      if a[q] == NUL {
        return false;
      }
      if a[q] == '"' {
        EndHere(a, p, q, done);
        return true;
      }
      done, todo := Advance(a, p, q, s, done, todo);
      q := q + 1;
    }
  }
}
