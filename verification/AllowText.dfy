/** The Allow header: the text of a set of methods, and how it is read back. */
module AllowText {
  import opened Bytes
  import opened StringSort

  /** The methods of a list, as the Allow header shows them. */
  function Join(ms: seq<string>): string {
    if ms == [] then ""
    else if |ms| == 1 then ms[0]
    else ms[0] + ", " + Join(ms[1..])
  }

  /** `allow` is the header text for the set of methods `ms`. */
  ghost predicate Spells(allow: string, ms: set<string>) {
    exists l :: Lists(l, ms) && allow == Join(l)
  }

  /** A set of methods has one header text, whatever the order in which a map was walked. */
  lemma SpellsUnique(a: string, b: string, ms: set<string>)
    requires Spells(a, ms) && Spells(b, ms)
    ensures a == b
  {
    var l :| Lists(l, ms) && a == Join(l);
    var k :| Lists(k, ms) && b == Join(k);
    ListingUnique(l, k, ms);
  }

  /** No methods, no text; and the other way round, as no method has an empty name. */
  lemma SpellsNothing(a: string, ms: set<string>)
    requires Spells(a, ms) && "" !in ms
    ensures a == "" <==> ms == {}
  {
    var l :| Lists(l, ms) && a == Join(l);
    ListsNothing(l, ms);
    if l != [] {
      assert l[0] in l;
    }
  }

  // ----- reading the text

  /** Where the first ", " is, or the length of the text. */
  function Cut(s: string): (k: nat)
    ensures k <= |s|
    ensures k < |s| ==> k + 2 <= |s| && s[k] == ',' && s[k + 1] == ' '
    ensures forall i :: 0 <= i < k && i + 1 < |s| ==> !(s[i] == ',' && s[i + 1] == ' ')
  {
    if |s| >= 2 && s[0] == ',' && s[1] == ' ' then 0 else if s == "" then 0 else 1 + Cut(s[1..])
  }

  /** The parts between the ", ". */
  function Parts(s: string): (ps: seq<string>)
    ensures ps != []
  {
    if Cut(s) == |s| then [s] else [s[..Cut(s)]] + Parts(s[Cut(s) + 2..])
  }

  lemma CutBehind(m: string, rest: string)
    requires ',' !in m
    ensures Cut(m + (", " + rest)) == |m|
  {
    var s := m + (", " + rest);
    assert s[|m|] == ',' && s[|m| + 1] == ' ';
    forall i | 0 <= i < |m| ensures s[i] != ',' {
      assert s[i] == m[i] && m[i] in m;
    }
  }

  lemma CutNowhere(m: string)
    requires ',' !in m
    ensures Cut(m) == |m|
  {
    forall i | 0 <= i < |m| ensures m[i] != ',' {
      assert m[i] in m;
    }
  }

  lemma PartsBehind(m: string, rest: string)
    requires ',' !in m
    ensures Parts(m + (", " + rest)) == [m] + Parts(rest)
  {
    CutBehind(m, rest);
    Around(m, rest);
  }

  lemma Around(m: string, rest: string)
    ensures var s := m + (", " + rest);
            |m| + 2 <= |s| && s[..|m|] == m && s[|m| + 2..] == rest
  {
  }

  /** The list can be read back from the text. */
  lemma {:induction false} PartsOfJoin(ms: seq<string>)
    requires ms != [] && forall i :: 0 <= i < |ms| ==> ',' !in ms[i]
    ensures Parts(Join(ms)) == ms
    decreases |ms|
  {
    if |ms| == 1 {
      CutNowhere(ms[0]);
    } else {
      PartsOfJoin(ms[1..]);
      PartsBehind(ms[0], Join(ms[1..]));
      JoinStep(ms[0], ms[1..], ms);
    }
  }

  lemma JoinStep(m: string, rest: seq<string>, ms: seq<string>)
    requires rest != [] && ms != [] && m == ms[0] && rest == ms[1..]
    ensures ms == [m] + rest && Join(ms) == m + (", " + Join(rest))
  {
    assert m + ", " + Join(rest) == m + (", " + Join(rest));
  }

  /** Byte by byte, `a` comes before `b`: at the first difference it has the smaller byte, or it ends there. */
  predicate Before(a: string, b: string) {
    var i := CommonPrefix(a, b);
    i < |b| && (i == |a| || a[i] < b[i])
  }

  lemma {:induction false} LessIsBefore(a: string, b: string)
    ensures Less(a, b) <==> Before(a, b)
    decreases |a|
  {
    if a != "" && b != "" && a[0] == b[0] {
      LessIsBefore(a[1..], b[1..]);
    }
  }

  /** The text of a set of methods, cut at ", ", names exactly these methods, in the order of their bytes. */
  lemma SpellsReadable(allow: string, ms: set<string>)
    requires Spells(allow, ms) && ms != {} && forall m :: m in ms ==> ',' !in m
    ensures forall m :: m in Parts(allow) <==> m in ms
    ensures forall i, j :: 0 <= i < j < |Parts(allow)| ==> Before(Parts(allow)[i], Parts(allow)[j])
  {
    var l :| Lists(l, ms) && allow == Join(l);
    ListsNothing(l, ms);
    forall i | 0 <= i < |l| ensures ',' !in l[i] {
      assert l[i] in l;
    }
    PartsOfJoin(l);
    forall i, j | 0 <= i < j < |l| ensures Before(l[i], l[j]) {
      LessIsBefore(l[i], l[j]);
    }
  }
}
