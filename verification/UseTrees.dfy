/** What brace expansion means: words with alternatives, their text, and their leaves. */
module UseTrees {
  import opened Wrappers
  import opened UsePaths

  /** A word is characters and groups `{a,b,..}` in a row; each alternative is a word. */
  datatype Word = End | Lit(c: char, rest: Word) | Group(alts: Words, next: Word)
  datatype Words = Nil | More(head: Word, tail: Words)

  ghost predicate Plain(c: char) { c != '{' && c != '}' && c != ',' && c as int !in SPACES }

  ghost predicate IsPlain(w: Word) {
    match w
    case End => true
    case Lit(c, r) => Plain(c) && IsPlain(r)
    case Group(alts, r) => ArePlain(alts) && IsPlain(r)
  }

  ghost predicate ArePlain(alts: Words) {
    match alts
    case Nil => true
    case More(a, t) => IsPlain(a) && ArePlain(t)
  }

  function Print(w: Word): string {
    match w
    case End => ""
    case Lit(c, r) => [c] + Print(r)
    case Group(alts, r) => "{" + (Join(alts) + ("}" + Print(r)))
  }

  function Join(alts: Words): string {
    match alts
    case Nil => ""
    case More(a, t) => if t.Nil? then Print(a) else Print(a) + ("," + Join(t))
  }

  // ---------------------------------------------------------------- leaves

  function Prefixed(p: string, leaves: seq<string>): seq<string> {
    seq(|leaves|, i requires 0 <= i < |leaves| => p + leaves[i])
  }

  /** Every leaf of the first before every leaf of the second, in order. */
  function Product(a: seq<string>, b: seq<string>): seq<string> {
    if a == [] then [] else Prefixed(a[0], b) + Product(a[1..], b)
  }

  /** The leaf paths in order. An alternative without text, as after a trailing comma, has none. */
  function Leaves(w: Word): seq<string> {
    match w
    case End => [""]
    case Lit(c, r) => Prefixed([c], Leaves(r))
    case Group(alts, r) => Product(AltLeaves(alts), Leaves(r))
  }

  function AltLeaves(alts: Words): seq<string> {
    match alts
    case Nil => []
    case More(a, t) => (if Print(a) == "" then [] else Leaves(a)) + AltLeaves(t)
  }

  lemma PrefixedConcat(p: string, a: seq<string>, b: seq<string>)
    ensures Prefixed(p, a + b) == Prefixed(p, a) + Prefixed(p, b)
  {}

  lemma PrefixedTwice(p: string, q: string, a: seq<string>)
    ensures Prefixed(p, Prefixed(q, a)) == Prefixed(p + q, a)
  {
    forall i | 0 <= i < |a| ensures p + (q + a[i]) == (p + q) + a[i] {}
  }

  lemma PrefixedEmpty(a: seq<string>)
    ensures Prefixed("", a) == a
  {
    forall i | 0 <= i < |a| ensures "" + a[i] == a[i] {}
  }

  lemma {:induction false} ProductConcat(a: seq<string>, b: seq<string>, c: seq<string>)
    ensures Product(a + b, c) == Product(a, c) + Product(b, c)
  {
    if a == [] {
      assert a + b == b;
    } else {
      assert (a + b)[1..] == a[1..] + b;
      ProductConcat(a[1..], b, c);
    }
  }

  lemma {:induction false} ProductPrefixed(p: string, a: seq<string>, b: seq<string>)
    ensures Product(Prefixed(p, a), b) == Prefixed(p, Product(a, b))
  {
    if a != [] {
      assert Prefixed(p, a)[1..] == Prefixed(p, a[1..]);
      ProductPrefixed(p, a[1..], b);
      PrefixedTwice(p, a[0], b);
      PrefixedConcat(p, Prefixed(a[0], b), Product(a[1..], b));
    }
  }

  lemma {:induction false} ProductAssoc(a: seq<string>, b: seq<string>, c: seq<string>)
    ensures Product(Product(a, b), c) == Product(a, Product(b, c))
  {
    if a != [] {
      ProductAssoc(a[1..], b, c);
      ProductConcat(Prefixed(a[0], b), Product(a[1..], b), c);
      ProductPrefixed(a[0], b, c);
    }
  }

  lemma ProductUnit(b: seq<string>)
    ensures Product([""], b) == b
  {
    PrefixedEmpty(b);
    assert [""][1..] == [];
  }

  // ---------------------------------------------------------------- words in a row

  lemma Assoc(a: string, b: string, c: string)
    ensures (a + b) + c == a + (b + c)
  {}

  lemma Collect(cur: string, j: string, r: string)
    ensures cur + "{" + j + "}" + r == cur + ("{" + (j + ("}" + r)))
  {}

  lemma Regroup(j: string, r: string, t: string)
    ensures "{" + (j + ("}" + r)) + t == "{" + (j + ("}" + (r + t)))
  {}

  function Append(w: Word, v: Word): Word {
    match w
    case End => v
    case Lit(c, r) => Lit(c, Append(r, v))
    case Group(alts, r) => Group(alts, Append(r, v))
  }

  lemma {:induction false} AppendPrints(w: Word, v: Word)
    ensures Print(Append(w, v)) == Print(w) + Print(v)
    ensures IsPlain(w) && IsPlain(v) ==> IsPlain(Append(w, v))
  {
    match w
    case End => assert "" + Print(v) == Print(v);
    case Lit(c, r) =>
      AppendPrints(r, v);
      Assoc([c], Print(r), Print(v));
    case Group(alts, r) =>
      AppendPrints(r, v);
      Regroup(Join(alts), Print(r), Print(v));
  }

  lemma {:induction false} AppendLeaves(w: Word, v: Word)
    ensures Leaves(Append(w, v)) == Product(Leaves(w), Leaves(v))
  {
    match w
    case End => ProductUnit(Leaves(v));
    case Lit(c, r) =>
      AppendLeaves(r, v);
      ProductPrefixed([c], Leaves(r), Leaves(v));
    case Group(alts, r) =>
      AppendLeaves(r, v);
      ProductAssoc(AltLeaves(alts), Leaves(r), Leaves(v));
  }

  // ---------------------------------------------------------------- the text is read back

  lemma {:induction false} StripPrinted(w: Word)
    requires IsPlain(w)
    ensures Strip(Print(w)) == Print(w)
  {
    match w
    case End =>
    case Lit(c, r) =>
      StripPrinted(r);
      assert ([c] + Print(r))[1..] == Print(r);
    case Group(alts, r) =>
      StripPrinted(r);
      StripJoined(alts);
      StripConcat("{", Join(alts) + ("}" + Print(r)));
      StripConcat(Join(alts), "}" + Print(r));
      StripConcat("}", Print(r));
      assert Strip("{") == "{" && Strip("}") == "}";
  }

  lemma {:induction false} StripJoined(alts: Words)
    requires ArePlain(alts)
    ensures Strip(Join(alts)) == Join(alts)
  {
    match alts
    case Nil =>
    case More(a, t) =>
      StripPrinted(a);
      if t.More? {
        StripJoined(t);
        StripConcat(Print(a), "," + Join(t));
        StripConcat(",", Join(t));
        assert Strip(",") == ",";
      }
  }

  lemma {:induction false} StripConcat(s: string, t: string)
    ensures Strip(s + t) == Strip(s) + Strip(t)
  {
    if s == "" {
      assert s + t == t;
    } else {
      assert (s + t)[1..] == s[1..] + t;
      StripConcat(s[1..], t);
    }
  }

  function Shift(r: Option<nat>, n: nat): Option<nat> { if r.None? then None else Some(r.value + n) }

  lemma CloseStep(c: char, t: string, depth: int)
    ensures CloseIn([c] + t, depth) == if depth + Delta(c) == 0 then Some(0) else Shift(CloseIn(t, depth + Delta(c)), 1)
  {
    assert ([c] + t)[1..] == t;
  }

  /** Inside a group, words are balanced: the scan for its end passes over them. */
  lemma {:induction false} ClosePasses(w: Word, t: string, depth: int)
    requires IsPlain(w) && depth >= 1
    ensures CloseIn(Print(w) + t, depth) == Shift(CloseIn(t, depth), |Print(w)|)
  {
    match w
    case End => assert "" + t == t;
    case Lit(c, r) =>
      Assoc([c], Print(r), t);
      CloseStep(c, Print(r) + t, depth);
      ClosePasses(r, t, depth);
    case Group(alts, r) =>
      ClosePassesAll(alts, "}" + (Print(r) + t), depth + 1);
      ClosePasses(r, t, depth);
      CloseGroup(Join(alts), Print(r), t, depth);
  }

  lemma CloseGroup(j: string, r: string, t: string, depth: int)
    requires depth >= 1 && CloseIn(j + ("}" + (r + t)), depth + 1) == Shift(CloseIn("}" + (r + t), depth + 1), |j|)
    requires CloseIn(r + t, depth) == Shift(CloseIn(t, depth), |r|)
    ensures CloseIn("{" + (j + ("}" + r)) + t, depth) == Shift(CloseIn(t, depth), |"{" + (j + ("}" + r))|)
  {
    Regroup(j, r, t);
    CloseStep('{', j + ("}" + (r + t)), depth);
    CloseStep('}', r + t, depth + 1);
  }

  lemma {:induction false} ClosePassesAll(alts: Words, t: string, depth: int)
    requires ArePlain(alts) && depth >= 1
    ensures CloseIn(Join(alts) + t, depth) == Shift(CloseIn(t, depth), |Join(alts)|)
  {
    match alts
    case Nil => assert "" + t == t;
    case More(a, m) =>
      if m.Nil? {
        ClosePasses(a, t, depth);
      } else {
        Assoc(Print(a), "," + Join(m), t);
        Assoc(",", Join(m), t);
        ClosePasses(a, "," + (Join(m) + t), depth);
        CloseStep(',', Join(m) + t, depth);
        ClosePassesAll(m, t, depth);
      }
  }

  lemma PieceStep(c: char, t: string, depth: int, cur: string)
    ensures Pieces([c] + t, depth, cur)
            == if c == ',' && depth == 0 then [cur] + Pieces(t, depth, "") else Pieces(t, depth + Delta(c), cur + [c])
  {
    assert ([c] + t)[1..] == t;
  }

  /** Splitting passes over a word in one piece. */
  lemma {:induction false} PiecesPass(w: Word, t: string, depth: int, cur: string)
    requires IsPlain(w) && depth >= 0
    ensures Pieces(Print(w) + t, depth, cur) == Pieces(t, depth, cur + Print(w))
  {
    match w
    case End => assert "" + t == t && cur + "" == cur;
    case Lit(c, r) =>
      Assoc([c], Print(r), t);
      PieceStep(c, Print(r) + t, depth, cur);
      PiecesPass(r, t, depth, cur + [c]);
      Assoc(cur, [c], Print(r));
    case Group(alts, r) =>
      var inner := "}" + (Print(r) + t);
      Regroup(Join(alts), Print(r), t);
      PieceStep('{', Join(alts) + inner, depth, cur);
      PiecesPassAll(alts, inner, depth + 1, cur + "{");
      PieceStep('}', Print(r) + t, depth + 1, cur + "{" + Join(alts));
      PiecesPass(r, t, depth, cur + "{" + Join(alts) + "}");
      Collect(cur, Join(alts), Print(r));
  }

  lemma {:induction false} PiecesPassAll(alts: Words, t: string, depth: int, cur: string)
    requires ArePlain(alts) && depth >= 1
    ensures Pieces(Join(alts) + t, depth, cur) == Pieces(t, depth, cur + Join(alts))
  {
    match alts
    case Nil => assert "" + t == t && cur + "" == cur;
    case More(a, m) =>
      if m.Nil? {
        PiecesPass(a, t, depth, cur);
      } else {
        Assoc(Print(a), "," + Join(m), t);
        Assoc(",", Join(m), t);
        PiecesPass(a, "," + (Join(m) + t), depth, cur);
        PieceStep(',', Join(m) + t, depth, cur + Print(a));
        PiecesPassAll(m, t, depth, cur + Print(a) + ",");
        Assoc(cur + Print(a), ",", Join(m));
        Assoc(cur, Print(a), "," + Join(m));
      }
  }

  function Prints(alts: Words): seq<string> {
    match alts
    case Nil => []
    case More(a, t) => [Print(a)] + Prints(t)
  }

  /** `split_top` of a group's text gives back its alternatives. */
  lemma {:induction false} SplitJoined(alts: Words)
    requires ArePlain(alts)
    ensures SplitTopF(Join(alts)) == NonEmpty(Prints(alts))
  {
    match alts
    case Nil =>
    case More(a, t) =>
      if t.Nil? {
        PiecesPass(a, "", 0, "");
        assert Print(a) + "" == Print(a) && "" + Print(a) == Print(a);
        assert Prints(alts) == [Print(a)];
      } else {
        PiecesPass(a, "," + Join(t), 0, "");
        PieceStep(',', Join(t), 0, "" + Print(a));
        assert "" + Print(a) == Print(a);
        SplitJoined(t);
        NonEmptyAppend([Print(a)], Pieces(Join(t), 0, ""));
        NonEmptyAppend([Print(a)], Prints(t));
      }
  }

  // ---------------------------------------------------------------- the first group

  predicate HasGroup(w: Word) { w.Group? || (w.Lit? && HasGroup(w.rest)) }

  /** A word is its head of characters, its first group, and what follows. */
  function Head(w: Word): string { if w.Lit? then [w.c] + Head(w.rest) else "" }
  function First(w: Word): Words
    requires HasGroup(w)
  {
    if w.Group? then w.alts else First(w.rest)
  }
  function After(w: Word): Word
    requires HasGroup(w)
  {
    if w.Group? then w.next else After(w.rest)
  }

  /** The word with its first group replaced by one alternative. */
  function Choose(w: Word, a: Word): Word
    requires HasGroup(w)
  {
    if w.Group? then Append(a, w.next) else Lit(w.c, Choose(w.rest, a))
  }

  lemma {:induction false} GroupText(w: Word)
    requires HasGroup(w) && IsPlain(w)
    ensures Print(w) == Head(w) + ("{" + (Join(First(w)) + ("}" + Print(After(w)))))
    ensures '{' !in Head(w) && ArePlain(First(w)) && IsPlain(After(w))
  {
    if w.Group? {
      assert "" + Print(w) == Print(w);
    } else {
      GroupText(w.rest);
      var tail := "{" + (Join(First(w)) + ("}" + Print(After(w))));
      Assoc([w.c], Head(w.rest), tail);
    }
  }

  lemma {:induction false} GroupLeaves(w: Word)
    requires HasGroup(w)
    ensures Leaves(w) == Prefixed(Head(w), Product(AltLeaves(First(w)), Leaves(After(w))))
  {
    if w.Group? {
      PrefixedEmpty(Leaves(w));
    } else {
      GroupLeaves(w.rest);
      PrefixedTwice([w.c], Head(w.rest), Product(AltLeaves(First(w)), Leaves(After(w))));
    }
  }

  lemma {:induction false} ChooseText(w: Word, a: Word)
    requires HasGroup(w) && IsPlain(w) && IsPlain(a)
    ensures Print(Choose(w, a)) == Head(w) + Print(a) + Print(After(w)) && IsPlain(Choose(w, a))
  {
    if w.Group? {
      AppendPrints(a, w.next);
      assert "" + Print(a) == Print(a);
    } else {
      ChooseText(w.rest, a);
      Assoc([w.c], Head(w.rest) + Print(a), Print(After(w)));
      Assoc([w.c], Head(w.rest), Print(a));
    }
  }

  lemma {:induction false} ChooseLeaves(w: Word, a: Word)
    requires HasGroup(w)
    ensures Leaves(Choose(w, a)) == Prefixed(Head(w), Product(Leaves(a), Leaves(After(w))))
  {
    if w.Group? {
      AppendLeaves(a, w.next);
      PrefixedEmpty(Product(Leaves(a), Leaves(w.next)));
    } else {
      ChooseLeaves(w.rest, a);
      PrefixedTwice([w.c], Head(w.rest), Product(Leaves(a), Leaves(After(w))));
    }
  }

  lemma {:induction false} NoGroup(w: Word)
    requires !HasGroup(w) && IsPlain(w)
    ensures '{' !in Print(w) && Leaves(w) == [Print(w)]
  {
    if w.Lit? {
      NoGroup(w.rest);
    }
  }

  // ---------------------------------------------------------------- expand of the text

  lemma {:induction false} FindAfter(p: string, t: string)
    requires '{' !in p
    ensures FindOpen(p + ("{" + t)) == Some(|p|)
  {
    if p == "" {
      assert p + ("{" + t) == "{" + t;
    } else {
      assert (p + ("{" + t))[1..] == p[1..] + ("{" + t);
      FindAfter(p[1..], t);
    }
  }

  lemma GroupCut(p: string, j: string, t: string)
    ensures var s := p + ("{" + (j + ("}" + t)));
            && |s| == |p| + |j| + |t| + 2 && s[|p|] == '{' && s[..|p|] == p && s[|p|..] == "{" + (j + ("}" + t))
            && s[|p| + 1..|p| + 1 + |j|] == j && s[|p| + |j| + 2..] == t
  {}

  lemma GroupClose(alts: Words, t: string)
    requires ArePlain(alts)
    ensures CloseIn("{" + (Join(alts) + ("}" + t)), 0) == Some(|Join(alts)| + 1)
  {
    CloseStep('{', Join(alts) + ("}" + t), 0);
    ClosePassesAll(alts, "}" + t, 1);
    CloseStep('}', t, 1);
  }

  lemma SpanTo(s: string, open: nat, n: nat)
    requires open + n + 1 < |s| && s[open] == '{' && CloseIn(s[open..], 0) == Some(n + 1)
    ensures Body(s, open) == s[open + 1..open + 1 + n] && Suffix(s, open) == s[open + n + 2..]
  {}

  lemma TextSpan(p: string, j: string, t: string)
    requires CloseIn("{" + (j + ("}" + t)), 0) == Some(|j| + 1)
    ensures var s := p + ("{" + (j + ("}" + t)));
            |p| < |s| && s[|p|] == '{' && s[..|p|] == p && Body(s, |p|) == j && Suffix(s, |p|) == t
  {
    GroupCut(p, j, t);
    SpanTo(p + ("{" + (j + ("}" + t))), |p|, |j|);
  }

  /** The scan ends at the closing brace of the first group. */
  lemma GroupSpan(p: string, alts: Words, t: string)
    requires '{' !in p && ArePlain(alts)
    ensures var s := p + ("{" + (Join(alts) + ("}" + t)));
            FindOpen(s) == Some(|p|) && |p| < |s|
                && s[|p|] == '{' && s[..|p|] == p && Body(s, |p|) == Join(alts) && Suffix(s, |p|) == t
  {
    FindAfter(p, Join(alts) + ("}" + t));
    GroupClose(alts, t);
    TextSpan(p, Join(alts), t);
  }

  /** `expand` of the text of a word, with spaces anywhere, is its leaves in order. */
  lemma {:induction false} ExpandPrinted(path: string, w: Word)
    requires IsPlain(w) && Unspaced(path) == Print(w)
    ensures ExpandF(path) == Leaves(w)
    decreases OpenCount(path), 1
  {
    StripUnspaces(path);
    StripCount(path);
    if HasGroup(w) {
      var p, alts, v := Head(w), First(w), After(w);
      GroupText(w);
      GroupSpan(p, alts, Print(v));
      SplitJoined(alts);
      forall q | q in SplitTopF(Join(alts)) ensures OpenCount(p + q + Print(v)) < OpenCount(path) {
        FewerBraces(Print(w), |p|, q);
      }
      ExpandAlternatives(w, alts, OpenCount(path));
      GroupLeaves(w);
    } else {
      NoGroup(w);
      FindOpenIs(Print(w));
    }
  }

  lemma {:induction false} ExpandAlternatives(w: Word, alts: Words, bound: nat)
    requires HasGroup(w) && IsPlain(w) && ArePlain(alts)
    requires forall q :: q in NonEmpty(Prints(alts)) ==> OpenCount(Head(w) + q + Print(After(w))) < bound
    ensures ExpandAll(Head(w), NonEmpty(Prints(alts)), Print(After(w)), bound)
            == Prefixed(Head(w), Product(AltLeaves(alts), Leaves(After(w))))
    decreases bound, 0, alts
  {
    match alts
    case Nil =>
    case More(a, t) =>
      var p, v, parts := Head(w), After(w), NonEmpty(Prints(alts));
      assert Prints(alts)[1..] == Prints(t);
      if Print(a) == "" {
        ExpandAlternatives(w, t, bound);
        assert AltLeaves(alts) == AltLeaves(t);
        assert parts == NonEmpty(Prints(t));
      } else {
        assert parts == [Print(a)] + NonEmpty(Prints(t)) && parts[1..] == NonEmpty(Prints(t)) && Print(a) in parts;
        ChooseText(w, a);
        ChooseLeaves(w, a);
        StripPrinted(Choose(w, a));
        StripUnspaces(Print(Choose(w, a)));
        ExpandPrinted(p + Print(a) + Print(v), Choose(w, a));
        ExpandAlternatives(w, t, bound);
        ProductConcat(Leaves(a), AltLeaves(t), Leaves(v));
        PrefixedConcat(p, Product(Leaves(a), Leaves(v)), Product(AltLeaves(t), Leaves(v)));
      }
  }

  lemma UnspacedCons(c: char, s: string)
    ensures Unspaced([c] + s) == (if c as int in SPACES then "" else [c]) + Unspaced(s)
  {
    assert ([c] + s)[1..] == s;
  }

  lemma UnspacedTail()
    ensures Unspaced(" c}") == "c}"
  {
    UnspacedCons('}', "");
    UnspacedCons('c', "}");
    UnspacedCons(' ', "c}");
    assert " c}" == [' '] + "c}";
  }

  lemma UnspacedExample()
    ensures Unspaced("{b, c}") == "{b,c}"
  {
    UnspacedTail();
    UnspacedCons(',', " c}");
    UnspacedCons('b', ", c}");
    UnspacedCons('{', "b, c}");
    assert "{b, c}" == ['{'] + "b, c}" && "b, c}" == ['b'] + ", c}" && ", c}" == [','] + " c}";
  }

  /** Two alternatives, with a space after the comma. */
  lemma ExpandSpaced()
    ensures ExpandF("{b, c}") == ["b", "c"]
  {
    var alts := More(Lit('b', End), More(Lit('c', End), Nil));
    TwoLetters('b', 'c', alts);
    UnspacedExample();
    ExpandPrinted("{b, c}", Group(alts, End));
    assert Prefixed("b", [""]) == ["b"] && Prefixed("c", [""]) == ["c"];
    assert ["b", "c"][1..] == ["c"] && Product(["c"], [""]) == ["c"];
  }

  lemma TwoLetters(b: char, c: char, alts: Words)
    requires Plain(b) && Plain(c) && alts == More(Lit(b, End), More(Lit(c, End), Nil))
    ensures Print(Group(alts, End)) == ['{', b, ',', c, '}']
    ensures IsPlain(Group(alts, End)) && AltLeaves(alts) == [[b], [c]]
  {
    var last := More(Lit(c, End), Nil);
    assert Print(Lit(b, End)) == [b] && Print(Lit(c, End)) == [c] && Join(last) == [c] && Join(alts) == [b, ',', c];
    assert Leaves(Lit(b, End)) == [[b]] && Leaves(Lit(c, End)) == [[c]] && AltLeaves(last) == [[c]];
    assert IsPlain(End) && IsPlain(Lit(b, End)) && IsPlain(Lit(c, End)) && ArePlain(Nil) && ArePlain(last);
    assert ArePlain(alts);
  }

  // ---------------------------------------------------------------- leaves are paths

  ghost predicate AllPlain(s: string) { forall i :: 0 <= i < |s| ==> Plain(s[i]) }

  /** No brace, comma or space is left in a leaf. */
  lemma {:induction false} LeavesArePlain(w: Word, leaf: string)
    requires IsPlain(w) && leaf in Leaves(w)
    ensures AllPlain(leaf)
  {
    match w
    case End =>
    case Lit(c, r) =>
      var i :| 0 <= i < |Leaves(r)| && leaf == [c] + Leaves(r)[i];
      LeavesArePlain(r, Leaves(r)[i]);
    case Group(alts, r) =>
      var x, y := ProductSplits(AltLeaves(alts), Leaves(r), leaf);
      AltLeavesArePlain(alts, x);
      LeavesArePlain(r, y);
  }

  lemma {:induction false} AltLeavesArePlain(alts: Words, leaf: string)
    requires ArePlain(alts) && leaf in AltLeaves(alts)
    ensures AllPlain(leaf)
  {
    match alts
    case More(a, t) =>
      if Print(a) != "" && leaf in Leaves(a) {
        LeavesArePlain(a, leaf);
      } else {
        AltLeavesArePlain(t, leaf);
      }
  }

  lemma {:induction false} ProductSplits(a: seq<string>, b: seq<string>, leaf: string) returns (x: string, y: string)
    requires leaf in Product(a, b)
    ensures x in a && y in b && leaf == x + y
  {
    if leaf in Prefixed(a[0], b) {
      var i :| 0 <= i < |b| && leaf == a[0] + b[i];
      x, y := a[0], b[i];
    } else {
      x, y := ProductSplits(a[1..], b, leaf);
    }
  }
}
