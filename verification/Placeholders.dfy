/** Rewriting the placeholders of a backend URL: `{name}` becomes `{resp042_.name}` for every name of a set,
    one replacement after the other in whatever order a map yields the names; and the way back. */
module Placeholders {
  import opened Bytes
  import opened AsciiCase

  const PREFIX := "resp042_."
  const MARKER := "{{.Resp042_."

  // ----- placeholders of a text

  /** A byte that the key pattern accepts: a word byte, or one of "-.:/". */
  predicate IsKeyByte(c: char) {
    'a' <= c <= 'z' || 'A' <= c <= 'Z' || '0' <= c <= '9' || c == '_' || c == '-' || c == '.' || c == ':' || c == '/'
  }

  predicate IsKey(s: string) {
    s != "" && forall i :: 0 <= i < |s| ==> IsKeyByte(s[i])
  }

  /** The length of the run of key bytes at the start of `s`. */
  function KeyRun(s: string): (n: nat)
    ensures n <= |s| && (forall i :: 0 <= i < n ==> IsKeyByte(s[i])) && (n < |s| ==> !IsKeyByte(s[n]))
  {
    if s == "" || !IsKeyByte(s[0]) then 0 else 1 + KeyRun(s[1..])
  }

  /** The key of the placeholder at the start of `s`, or "" if there is none. */
  function KeyAt(s: string): (k: string)
    ensures k != "" ==> IsKey(k) && "{" + k + "}" <= s
  {
    if s == "" || s[0] != '{' then ""
    else
      var n := KeyRun(s[1..]);
      if n > 0 && n + 1 < |s| && s[n + 1] == '}' then s[1..n + 1] else ""
  }

  lemma KeyAtIs(k: string, rest: string)
    requires IsKey(k)
    ensures KeyAt("{" + k + "}" + rest) == k
  {
    var s := "{" + k + "}" + rest;
    assert s[1..] == k + "}" + rest;
    var n := KeyRun(s[1..]);
    assert forall i :: 0 <= i < |k| ==> s[1..][i] == k[i];
    assert s[1..][|k|] == '}';
    assert n == |k|;
  }

  /** The keys that the pattern finds, from left to right. */
  function Matches(s: string): seq<string> {
    if s == "" then []
    else if KeyAt(s) != "" then [KeyAt(s)] + Matches(s[|KeyAt(s)| + 2..])
    else Matches(s[1..])
  }

  /** The set of keys, filled in a loop. */
  method NewParamsSet(subject: string) returns (keys: set<string>)
    ensures forall k :: k in keys <==> k in Matches(subject)
  {
    var matches := Matches(subject);
    keys := {};
    for i := 0 to |matches|
      invariant forall k :: k in keys <==> k in matches[..i]
    {
      assert matches[..i + 1] == matches[..i] + [matches[i]];
      keys := keys + {matches[i]};
    }
    assert matches[..|matches|] == matches;
  }

  const DIGITS := "0123456789"

  lemma Digits(c: char)
    ensures c in DIGITS <==> '0' <= c <= '9'
  {
    if '0' <= c <= '9' {
      assert DIGITS[(c - '0') as int] == c;
    }
  }

  /** The bytes of keys, one by one. */
  lemma KeyBytes(c: char)
    ensures IsKeyByte(c) <==> c in SMALLS || c in CAPITALS || c in DIGITS || c in {'_', '-', '.', ':', '/'}
  {
    Smalls(c);
    Capitals(c);
    Digits(c);
  }

  /** `p` occurs in `s` as a placeholder. */
  ghost predicate Occurs(p: string, s: string) {
    exists i :: 0 <= i <= |s| && "{" + p + "}" <= s[i..]
  }

  lemma OccursTail(p: string, s: string, n: nat)
    requires n <= |s| && Occurs(p, s[n..])
    ensures Occurs(p, s)
  {
    var i :| 0 <= i <= |s[n..]| && "{" + p + "}" <= s[n..][i..];
    assert s[n..][i..] == s[n + i..];
  }

  lemma InsidePlaceholder(s: string)
    requires KeyAt(s) != ""
    ensures forall i :: 0 < i < |KeyAt(s)| + 2 ==> s[i] != '{'
  {
    forall i | 0 < i < |KeyAt(s)| + 2 ensures s[i] != '{' {
      assert s[i] == ("{" + KeyAt(s) + "}")[i];
    }
  }

  /** An occurrence is at the start, or after the placeholder or the byte that is. */
  lemma OccursHere(p: string, s: string)
    requires IsKey(p) && Occurs(p, s)
    ensures s != "" && (KeyAt(s) == p || Occurs(p, s[if KeyAt(s) != "" then |KeyAt(s)| + 2 else 1..]))
  {
    var i :| 0 <= i <= |s| && "{" + p + "}" <= s[i..];
    assert s[i] == s[i..][0] == '{';
    if i == 0 {
      assert s[0..] == s;
      OccursAtStart(p, s);
    } else {
      if KeyAt(s) != "" {
        InsidePlaceholder(s);
      }
      OccursLater(p, s, i, if KeyAt(s) != "" then |KeyAt(s)| + 2 else 1);
    }
  }

  lemma OccursAtStart(p: string, s: string)
    requires IsKey(p) && "{" + p + "}" <= s
    ensures KeyAt(s) == p
  {
    assert s == "{" + p + "}" + s[|p| + 2..];
    KeyAtIs(p, s[|p| + 2..]);
  }

  lemma OccursLater(p: string, s: string, i: nat, n: nat)
    requires n <= i <= |s| && "{" + p + "}" <= s[i..]
    ensures Occurs(p, s[n..])
  {
    assert s[n..][i - n..] == s[i..];
  }

  /** The pattern finds every key that occurs, and no other. */
  lemma {:induction false} MatchesExact(s: string, p: string)
    ensures p in Matches(s) <==> IsKey(p) && Occurs(p, s)
    decreases |s|
  {
    if s != "" {
      var n := if KeyAt(s) != "" then |KeyAt(s)| + 2 else 1;
      MatchesExact(s[n..], p);
      if IsKey(p) && Occurs(p, s) {
        OccursHere(p, s);
      }
      if Occurs(p, s[n..]) {
        OccursTail(p, s, n);
      }
      if KeyAt(s) == p && p != "" {
        assert s[0..] == s;
      }
    }
  }

  // ----- substitution

  /** `s` with the key of every placeholder changed by `f`, all at once. */
  function Subst(s: string, f: string -> string): string {
    if s == "" then ""
    else if KeyAt(s) != "" then "{" + f(KeyAt(s)) + "}" + Subst(s[|KeyAt(s)| + 2..], f)
    else [s[0]] + Subst(s[1..], f)
  }

  /** Replacing every occurrence of `was`, from left to right. */
  function ReplaceAll(s: string, was: string, now: string): string
    requires was != ""
  {
    if s == "" then ""
    else if was <= s then now + ReplaceAll(s[|was|..], was, now)
    else [s[0]] + ReplaceAll(s[1..], was, now)
  }

  /** One replacement. */
  function Replace(s: string, p: string): string {
    ReplaceAll(s, "{" + p + "}", "{" + PREFIX + p + "}")
  }

  /** The replacements one after the other. */
  function Rewrite(s: string, order: seq<string>): string {
    if order == [] then s else Replace(Rewrite(s, order[..|order| - 1]), order[|order| - 1])
  }

  /** What one replacement does to a key. */
  function Tag(p: string, k: string): string {
    if k == p then PREFIX + p else k
  }

  /** What the replacements together do to a key. */
  function TagSeq(order: seq<string>, k: string): string {
    if order == [] then k else Tag(order[|order| - 1], TagSeq(order[..|order| - 1], k))
  }

  /** What is intended: every key of the set is prefixed, once. */
  function Intended(keys: set<string>, k: string): string {
    if k in keys then PREFIX + k else k
  }

  lemma {:induction false} SubstCong(s: string, f: string -> string, g: string -> string)
    requires forall k :: k in Matches(s) ==> f(k) == g(k)
    ensures Subst(s, f) == Subst(s, g)
    decreases |s|
  {
    if s != "" {
      SubstCong(s[if KeyAt(s) != "" then |KeyAt(s)| + 2 else 1..], f, g);
    }
  }

  /** Different keys in one place give different texts. */
  lemma {:induction false} SubstInjective(s: string, f: string -> string, g: string -> string, k: string)
    requires Subst(s, f) == Subst(s, g) && k in Matches(s)
    requires forall j :: j in Matches(s) ==> '}' !in f(j) && '}' !in g(j)
    ensures f(k) == g(k)
    decreases |s|
  {
    var h := KeyAt(s);
    if h != "" {
      var rest := s[|h| + 2..];
      SameBrace(f(h), Subst(rest, f), g(h), Subst(rest, g));
      if k in Matches(rest) {
        SubstInjective(rest, f, g, k);
      }
    } else {
      assert Subst(s, f)[1..] == Subst(s[1..], f) && Subst(s, g)[1..] == Subst(s[1..], g);
      SubstInjective(s[1..], f, g, k);
    }
  }

  lemma SameBrace(a: string, x: string, b: string, y: string)
    requires "{" + a + "}" + x == "{" + b + "}" + y && '}' !in a && '}' !in b
    ensures a == b && x == y
  {
    var s := "{" + a + "}" + x;
    FirstBrace(a, x);
    FirstBrace(b, y);
    FirstUnique(s, |a| + 1, |b| + 1);
    assert a == s[1..|a| + 1] && b == s[1..|b| + 1];
    assert x == s[|a| + 2..] && y == s[|b| + 2..];
  }

  lemma FirstBrace(a: string, x: string)
    requires '}' !in a
    ensures var s := "{" + a + "}" + x;
            s[|a| + 1] == '}' && forall m :: 0 <= m < |a| + 1 ==> s[m] != '}'
  {
    forall m | 0 < m < |a| + 1 ensures ("{" + a + "}" + x)[m] != '}' {
      assert ("{" + a + "}" + x)[m] == a[m - 1] && a[m - 1] in a;
    }
  }

  lemma FirstUnique(s: string, i: nat, j: nat)
    requires i < |s| && j < |s| && s[i] == '}' && s[j] == '}'
    requires forall m :: 0 <= m < i ==> s[m] != '}'
    requires forall m :: 0 <= m < j ==> s[m] != '}'
    ensures i == j
  {
  }

  // ----- one replacement is one substitution

  lemma HeadTail(x: string, y: string)
    requires x != ""
    ensures x + y == [x[0]] + (x[1..] + y)
  {
  }

  /** No match starts in a stretch without '{'. */
  lemma {:induction false} ReplaceSkips(x: string, r: string, was: string, now: string)
    requires was != "" && was[0] == '{' && '{' !in x
    ensures ReplaceAll(x + r, was, now) == x + ReplaceAll(r, was, now)
    decreases |x|
  {
    if x == "" {
      assert x + r == r;
    } else {
      assert x[0] in x && (x + r)[1..] == x[1..] + r;
      ReplaceSkips(x[1..], r, was, now);
    }
  }

  lemma HeadBrace(s: string, f: string -> string)
    ensures KeyAt(s) != "" ==> Subst(s, f) != "" && Subst(s, f)[0] == '{'
  {
  }

  /** A substitution does not bring forth text without '{'. */
  lemma {:induction false} SubstPrefix(s: string, f: string -> string, q: string)
    requires q <= Subst(s, f) && '{' !in q
    ensures q <= s
    decreases |s|
  {
    if q != "" {
      HeadBrace(s, f);
      assert q[0] in q && q[0] == Subst(s, f)[0] && s != "";
      assert q[1..] <= Subst(s[1..], f);
      SubstPrefix(s[1..], f, q[1..]);
      assert q == [s[0]] + q[1..];
    }
  }

  lemma KeyOverBrace(p: string, k: string, r: string)
    requires IsKey(p) && IsKey(k) && "{" + p + "}" <= "{" + k + "}" + r
    ensures p == k
  {
    var rest := ("{" + k + "}" + r)[|p| + 2..];
    assert "{" + k + "}" + r == "{" + p + "}" + rest;
    SameBrace(k, r, p, rest);
  }

  lemma {:induction false} ReplaceIsSubst(s: string, f: string -> string, p: string)
    requires IsKey(p) && forall k :: IsKey(k) ==> IsKey(f(k))
    ensures Replace(Subst(s, f), p) == Subst(s, k => Tag(p, f(k)))
    decreases |s|
  {
    var was, now, g := "{" + p + "}", "{" + PREFIX + p + "}", k => Tag(p, f(k));
    if s == "" {
    } else if KeyAt(s) != "" {
      var k, rest := f(KeyAt(s)), s[|KeyAt(s)| + 2..];
      ReplaceIsSubst(rest, f, p);
      ReplaceOne(k, Subst(rest, f), p);
    } else {
      ReplaceIsSubst(s[1..], f, p);
      NoNewKey(s, f, p);
      assert ([s[0]] + Subst(s[1..], f))[1..] == Subst(s[1..], f);
    }
  }

  lemma PrefixTail(a: string, b: string)
    requires a != "" && a <= b
    ensures a[1..] <= b[1..] && a[0] == b[0]
  {
  }

  /** Where `s` has no placeholder, its substitute has none. */
  lemma NoNewKey(s: string, f: string -> string, p: string)
    requires IsKey(p) && s != "" && KeyAt(s) == ""
    ensures !("{" + p + "}" <= [s[0]] + Subst(s[1..], f))
  {
    var r := Subst(s[1..], f);
    if "{" + p + "}" <= [s[0]] + r {
      PrefixTail("{" + p + "}", [s[0]] + r);
      assert ("{" + p + "}")[1..] == p + "}" && ([s[0]] + r)[1..] == r;
      SubstPrefix(s[1..], f, p + "}");
      OccursAtStart(p, s);
    }
  }

  /** A replacement at a placeholder changes its key, or passes over it. */
  lemma ReplaceOne(k: string, r: string, p: string)
    requires IsKey(p) && IsKey(k)
    ensures Replace("{" + k + "}" + r, p) == "{" + Tag(p, k) + "}" + Replace(r, p)
  {
    var was, now, s := "{" + p + "}", "{" + PREFIX + p + "}", "{" + k + "}" + r;
    if k == p {
      assert s[|was|..] == r;
    } else {
      if was <= s {
        KeyOverBrace(p, k, r);
      }
      HeadTail("{" + k + "}", r);
      assert ("{" + k + "}")[1..] == k + "}" && s[1..] == (k + "}") + r;
      ReplaceSkips(k + "}", r, was, now);
      HeadTail("{" + k + "}", ReplaceAll(r, was, now));
    }
  }

  lemma PrefixedKey(k: string)
    requires IsKey(k)
    ensures IsKey(PREFIX + k)
  {
  }

  lemma {:induction false} TagSeqKey(order: seq<string>, k: string)
    requires IsKey(k)
    ensures IsKey(TagSeq(order, k))
    decreases |order|
  {
    if order != [] {
      TagSeqKey(order[..|order| - 1], k);
    }
  }

  lemma {:induction false} RewriteIsSubst(s: string, order: seq<string>)
    requires forall p :: p in order ==> IsKey(p)
    ensures Rewrite(s, order) == Subst(s, k => TagSeq(order, k))
    decreases |order|
  {
    if order == [] {
      SubstNothing(s);
      SubstCong(s, k => k, k => TagSeq(order, k));
    } else {
      var init, p := order[..|order| - 1], order[|order| - 1];
      assert p in order;
      RewriteIsSubst(s, init);
      var f := k => TagSeq(init, k);
      forall k | IsKey(k) ensures IsKey(f(k)) {
        TagSeqKey(init, k);
      }
      ReplaceIsSubst(s, f, p);
      SubstCong(s, k => Tag(p, f(k)), k => TagSeq(order, k));
    }
  }

  lemma {:induction false} SubstNothing(s: string)
    ensures Subst(s, k => k) == s
    decreases |s|
  {
    if s != "" {
      SubstNothing(s[if KeyAt(s) != "" then |KeyAt(s)| + 2 else 1..]);
    }
  }

  // ----- the order of the names

  /** One of the orders in which a map can yield `keys`. */
  ghost predicate Orders(order: seq<string>, keys: set<string>) {
    Distinct(order) && forall k :: k in order <==> k in keys
  }

  /** No name of the set is another one already prefixed. */
  predicate Unprefixed(keys: set<string>) {
    forall p :: p in keys ==> PREFIX + p !in keys
  }

  lemma {:induction false} TagsOnce(order: seq<string>, k: string)
    requires Distinct(order) && forall p :: p in order ==> PREFIX + p !in order
    ensures TagSeq(order, k) == if k in order then PREFIX + k else k
    decreases |order|
  {
    if order != [] {
      var init, p := order[..|order| - 1], order[|order| - 1];
      assert order == init + [p] && p !in init && p in order;
      TagsOnce(init, k);
    }
  }

  /** In every order each name is prefixed exactly once, all of them as if at the same time. */
  lemma RewriteIntended(s: string, keys: set<string>, order: seq<string>)
    requires Unprefixed(keys) && (forall p :: p in keys ==> IsKey(p)) && Orders(order, keys)
    ensures Rewrite(s, order) == Subst(s, k => Intended(keys, k))
  {
    RewriteIsSubst(s, order);
    forall k ensures TagSeq(order, k) == Intended(keys, k) {
      TagsOnce(order, k);
    }
    SubstCong(s, k => TagSeq(order, k), k => Intended(keys, k));
  }

  /** A key never gets shorter. */
  lemma {:induction false} TagsGrow(order: seq<string>, rest: seq<string>, k: string)
    ensures |TagSeq(order + rest, k)| >= |TagSeq(order, k)|
    decreases |rest|
  {
    if rest == [] {
      assert order + rest == order;
    } else {
      var init := rest[..|rest| - 1];
      assert (order + rest)[..|order + rest| - 1] == order + init;
      TagsGrow(order, init, k);
    }
  }

  lemma {:induction false} SomeOrder(keys: set<string>) returns (order: seq<string>)
    ensures Orders(order, keys)
    decreases |keys|
  {
    if keys == {} {
      order := [];
    } else {
      var k :| k in keys;
      var init := SomeOrder(keys - {k});
      order := init + [k];
    }
  }

  /** Two names to begin with, then the others. */
  lemma OrderFrom(keys: set<string>, p: string, q: string) returns (order: seq<string>, rest: seq<string>)
    requires p in keys && q in keys && p != q
    ensures order == [p, q] + rest && Orders(order, keys)
  {
    rest := SomeOrder(keys - {p, q});
    order := [p, q] + rest;
    assert forall i :: 2 <= i < |order| ==> order[i] == rest[i - 2] && order[i] in rest;
  }

  /** A name met before its prefixed form is prefixed twice. */
  lemma PrefixedTwice(p: string, rest: seq<string>)
    ensures TagSeq([p, PREFIX + p] + rest, p) != PREFIX + p
  {
    var q := PREFIX + p;
    assert [p, q][..1] == [p] && [p][..0] == [];
    assert TagSeq([], p) == p;
    assert TagSeq([p], p) == q;
    assert TagSeq([p, q], p) == PREFIX + q;
    TagsGrow([p, q], rest, p);
  }

  /** An order that goes wrong when one name is another one with the prefix. */
  lemma WrongOrder(s: string, keys: set<string>, p: string) returns (order: seq<string>)
    requires (forall k :: k in keys <==> k in Matches(s)) && (forall k :: k in keys ==> IsKey(k))
    requires p in keys && PREFIX + p in keys
    ensures Orders(order, keys) && Rewrite(s, order) != Subst(s, k => Intended(keys, k))
  {
    var rest;
    order, rest := OrderFrom(keys, p, PREFIX + p);
    RewriteIsSubst(s, order);
    PrefixedTwice(p, rest);
    if Rewrite(s, order) == Subst(s, k => Intended(keys, k)) {
      forall j | j in Matches(s) ensures '}' !in TagSeq(order, j) && '}' !in Intended(keys, j) {
        MatchesExact(s, j);
        PrefixedKey(j);
        TagSeqKey(order, j);
        assert IsKey(TagSeq(order, j)) && IsKey(Intended(keys, j));
      }
      SubstInjective(s, k => TagSeq(order, k), k => Intended(keys, k), p);
    }
  }

  /** For the names of a text, the outcome is the intended one in every order exactly when no name is
      another one with the prefix. */
  lemma OrderIrrelevantExactly(s: string, keys: set<string>)
    requires forall k :: k in keys <==> k in Matches(s)
    ensures (forall order :: Orders(order, keys) ==> Rewrite(s, order) == Subst(s, k => Intended(keys, k)))
            <==> Unprefixed(keys)
  {
    forall k | k in keys ensures IsKey(k) {
      MatchesExact(s, k);
    }
    if Unprefixed(keys) {
      forall order | Orders(order, keys) ensures Rewrite(s, order) == Subst(s, k => Intended(keys, k)) {
        RewriteIntended(s, keys, order);
      }
    } else {
      var p :| p in keys && PREFIX + p in keys;
      var order := WrongOrder(s, keys, p);
    }
  }

  /** The loop over a map of names: some order, whichever the map yields. */
  method ProcessBackendUrlPattern(subject: string, backendParams: set<string>) returns (output: string)
    ensures exists order :: Orders(order, backendParams) && output == Rewrite(subject, order)
    ensures Unprefixed(backendParams) && (forall p :: p in backendParams ==> IsKey(p)) ==>
              output == Subst(subject, k => Intended(backendParams, k))
  {
    output := subject;
    var todo := backendParams;
    ghost var order: seq<string> := [];
    while todo != {}
      invariant todo <= backendParams && Orders(order, backendParams - todo) && output == Rewrite(subject, order)
      decreases |todo|
    {
      var p :| p in todo;
      output := ReplaceAll(output, "{" + p + "}", "{" + PREFIX + p + "}");
      assert (order + [p])[..|order|] == order;
      order := order + [p];
      todo := todo - {p};
    }
    if Unprefixed(backendParams) && forall p :: p in backendParams ==> IsKey(p) {
      RewriteIntended(subject, backendParams, order);
    }
  }

  // ----- the way back

  predicate StartsMarker(s: string) {
    MARKER <= s
  }

  /** The first "}}" at or after `k`, before any newline: its position, or the length of `s` if there is none. */
  function CloseFrom(s: string, k: nat): (e: nat)
    requires k <= |s|
    ensures k <= e <= |s|
    ensures e < |s| ==> e + 2 <= |s| && s[e] == '}' && s[e + 1] == '}'
    decreases |s| - k
  {
    if k + 2 > |s| then |s|
    else if s[k] == '}' && s[k + 1] == '}' then k
    else if s[k] == '\n' then |s|
    else CloseFrom(s, k + 1)
  }

  /** Each marked placeholder turned back: after a marker, at least one byte and no newline up to the
      nearest "}}". */
  function ApplyCaddyPlaceholders(s: string): string
    decreases |s|
  {
    if s == "" then ""
    else if StartsMarker(s) && |s| > |MARKER| && s[|MARKER|] != '\n' && CloseFrom(s, |MARKER| + 1) < |s| then
      var e := CloseFrom(s, |MARKER| + 1);
      "{" + s[|MARKER|..e] + "}" + ApplyCaddyPlaceholders(s[e + 2..])
    else [s[0]] + ApplyCaddyPlaceholders(s[1..])
  }

  /** A literal, and the name of the placeholder after it. */
  datatype Piece = Piece(literal: string, name: string)

  /** A text with its placeholders printed as `{{.Resp042_.name}}`. */
  function Printed(ps: seq<Piece>, tail: string): string {
    if ps == [] then tail else ps[0].literal + (MARKER + ps[0].name + "}}" + Printed(ps[1..], tail))
  }

  /** The same text with its placeholders as `{name}`. */
  function Braced(ps: seq<Piece>, tail: string): string {
    if ps == [] then tail else ps[0].literal + ("{" + ps[0].name + "}" + Braced(ps[1..], tail))
  }

  // ----- whole texts, forwards

  /** The text in which the names of the set are prefixed. */
  function Prefixed(ps: seq<Piece>, tail: string, keys: set<string>): string {
    if ps == [] then tail
    else
      ps[0].literal + ("{" + (if ps[0].name in keys then "resp042_." + ps[0].name else ps[0].name) + "}"
                       + Prefixed(ps[1..], tail, keys))
  }

  /** Literals without braces, and names that are keys. */
  predicate Plainly(ps: seq<Piece>, tail: string) {
    '{' !in tail && forall p :: p in ps ==> '{' !in p.literal && IsKey(p.name)
  }

  lemma ByteStays(c: char, r: string, s: string, f: string -> string)
    requires c != '{' && s == [c] + r
    ensures Subst(s, f) == [c] + Subst(r, f) && Matches(s) == Matches(r)
  {
    assert s[1..] == r;
  }

  lemma ConsLiteral(x: string, r: string)
    requires x != ""
    ensures x + r == [x[0]] + (x[1..] + r)
  {
  }

  lemma {:induction false} LiteralStays(x: string, r: string, f: string -> string)
    requires '{' !in x
    ensures Subst(x + r, f) == x + Subst(r, f) && Matches(x + r) == Matches(r)
    decreases |x|
  {
    if x == "" {
      assert x + r == r;
    } else {
      LiteralStays(x[1..], r, f);
      ConsLiteral(x, r);
      ConsLiteral(x, Subst(r, f));
      ByteStays(x[0], x[1..] + r, x + r, f);
    }
  }

  lemma PlaceholderTurns(k: string, r: string, f: string -> string)
    requires IsKey(k)
    ensures Subst("{" + k + "}" + r, f) == "{" + f(k) + "}" + Subst(r, f)
    ensures Matches("{" + k + "}" + r) == [k] + Matches(r)
  {
    var s := "{" + k + "}" + r;
    KeyAtIs(k, r);
    assert s[|k| + 2..] == r;
  }

  function Names(ps: seq<Piece>): seq<string> {
    if ps == [] then [] else [ps[0].name] + Names(ps[1..])
  }

  lemma {:induction false} SubstPieces(ps: seq<Piece>, tail: string, keys: set<string>)
    requires Plainly(ps, tail)
    ensures Subst(Braced(ps, tail), k => Intended(keys, k)) == Prefixed(ps, tail, keys)
    ensures Matches(Braced(ps, tail)) == Names(ps)
  {
    var f := k => Intended(keys, k);
    if ps == [] {
      LiteralStays(tail, "", f);
      assert tail + "" == tail;
    } else {
      var p, r := ps[0], Braced(ps[1..], tail);
      assert p in ps;
      SubstPieces(ps[1..], tail, keys);
      SubstCong(r, f, k => Intended(keys, k));
      LiteralStays(p.literal, "{" + p.name + "}" + r, f);
      PlaceholderTurns(p.name, r, f);
      SubstCong(Braced(ps, tail), f, k => Intended(keys, k));
    }
  }

  /** A text of literals and placeholders: whatever the order, exactly the names of the set are prefixed, once each
      time they occur, and the literals stay. */
  lemma RewritePieces(ps: seq<Piece>, tail: string, keys: set<string>, order: seq<string>)
    requires Plainly(ps, tail) && Orders(order, keys)
    requires forall p :: p in keys ==> IsKey(p) && "resp042_." + p !in keys
    ensures Rewrite(Braced(ps, tail), order) == Prefixed(ps, tail, keys)
  {
    RewriteIntended(Braced(ps, tail), keys, order);
    SubstPieces(ps, tail, keys);
  }

  // ----- and back

  /** The closing braces that end a placeholder are the first ones, and on the same line. */
  lemma {:induction false} ClosesExactly(s: string, k: nat, e: nat)
    requires k <= e < |s|
    ensures CloseFrom(s, k) == e <==>
              && e + 1 < |s| && s[e] == '}' && s[e + 1] == '}'
              && forall i :: k <= i < e ==> s[i] != '\n' && !(s[i] == '}' && s[i + 1] == '}')
    decreases e - k
  {
    if k < e && s[k] != '\n' && !(s[k] == '}' && s[k + 1] == '}') {
      ClosesExactly(s, k + 1, e);
    }
  }

  predicate NoMarker(s: string) {
    forall i :: 0 <= i <= |s| ==> !StartsMarker(s[i..])
  }

  predicate GoodName(n: string) {
    n != "" && '{' !in n && '}' !in n && '\n' !in n
  }

  /** A marker does not overlap itself, so none begins in a literal in front of one. */
  lemma MarkerAhead(x: string, r: string)
    requires x != "" && NoMarker(x) && (r == "" || StartsMarker(r))
    ensures !StartsMarker(x + r)
  {
    assert x[0..] == x;
    assert forall i :: 2 <= i < |MARKER| ==> MARKER[i] != '{';
    if |x| >= |MARKER| {
      assert (x + r)[..|MARKER|] == x[..|MARKER|];
    } else if r != "" {
      assert (x + r)[|x|] == r[0] == MARKER[0];
      assert (x + r)[|x| + 1] == r[1] == MARKER[1];
    }
  }

  lemma Passes(s: string)
    requires s != "" && !StartsMarker(s)
    ensures ApplyCaddyPlaceholders(s) == [s[0]] + ApplyCaddyPlaceholders(s[1..])
  {
  }

  lemma NoMarkerTail(x: string)
    requires NoMarker(x) && x != ""
    ensures NoMarker(x[1..])
  {
    forall i | 0 <= i <= |x[1..]| ensures !StartsMarker(x[1..][i..]) {
      assert x[1..][i..] == x[i + 1..];
    }
  }

  lemma {:induction false} SkipsLiteral(x: string, r: string)
    requires NoMarker(x) && (r == "" || StartsMarker(r))
    ensures ApplyCaddyPlaceholders(x + r) == x + ApplyCaddyPlaceholders(r)
    decreases |x|
  {
    if x == "" {
      assert x + r == r;
    } else {
      NoMarkerTail(x);
      SkipsLiteral(x[1..], r);
      SkipsByte(x[0], x[1..], x, r);
    }
  }

  lemma SkipsByte(c: char, y: string, x: string, r: string)
    requires x == [c] + y && NoMarker(x) && (r == "" || StartsMarker(r))
    requires ApplyCaddyPlaceholders(y + r) == y + ApplyCaddyPlaceholders(r)
    ensures ApplyCaddyPlaceholders(x + r) == x + ApplyCaddyPlaceholders(r)
  {
    MarkerAhead(x, r);
    Passes(x + r);
    HeadTail(x, r);
    HeadTail(x, ApplyCaddyPlaceholders(r));
  }

  lemma {:induction false} ClosesAt(s: string, k: nat, e: nat)
    requires k <= e && e + 2 <= |s| && s[e] == '}' && s[e + 1] == '}'
    requires forall i :: k <= i < e ==> s[i] != '}' && s[i] != '\n'
    ensures CloseFrom(s, k) == e
    decreases e - k
  {
    if k < e {
      ClosesAt(s, k + 1, e);
    }
  }

  lemma TurnsBack(n: string, r: string)
    requires GoodName(n)
    ensures ApplyCaddyPlaceholders(MARKER + n + "}}" + r) == "{" + n + "}" + ApplyCaddyPlaceholders(r)
  {
    var s := MARKER + n + "}}" + r;
    var m, e := |MARKER|, |MARKER| + |n|;
    forall i | m <= i < e ensures s[i] != '}' && s[i] != '\n' {
      assert s[i] == n[i - m] && n[i - m] in n;
    }
    ClosesAt(s, m + 1, e);
    assert s[m..e] == n && s[e + 2..] == r;
  }

  /** Turning a printed text back restores the braces, and nothing else changes. */
  lemma {:induction false} RoundTrip(ps: seq<Piece>, tail: string)
    requires forall p :: p in ps ==> NoMarker(p.literal) && GoodName(p.name)
    requires NoMarker(tail)
    ensures ApplyCaddyPlaceholders(Printed(ps, tail)) == Braced(ps, tail)
  {
    if ps == [] {
      SkipsLiteral(tail, "");
      assert tail + "" == tail;
    } else {
      var r := Printed(ps[1..], tail);
      RoundTrip(ps[1..], tail);
      assert ps[0] in ps;
      SkipsLiteral(ps[0].literal, MARKER + ps[0].name + "}}" + r);
      TurnsBack(ps[0].name, r);
    }
  }
}
