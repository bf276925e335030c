/** Brace expansion of `use` paths: the text functions, on every string. */
module UsePaths {
  import opened Wrappers

  // ---------------------------------------------------------------- characters

  /** What `\s` matches. */
  predicate IsSpace(c: char) {
    || '\t' <= c <= '\r' || '\U{1c}' <= c <= ' ' || c == '\U{85}' || c == '\U{a0}' || c == '\U{1680}'
    || '\U{2000}' <= c <= '\U{200a}' || c == '\U{2028}' || c == '\U{2029}' || c == '\U{202f}' || c == '\U{205f}'
       || c == '\U{3000}'
  }

  /** The code points that `\s` matches in a text: those of `str.isspace`. */
  ghost const SPACES: set<int> := {
    0x9, 0xa, 0xb, 0xc, 0xd, 0x1c, 0x1d, 0x1e, 0x1f, 0x20, 0x85, 0xa0, 0x1680, 0x2000, 0x2001, 0x2002, 0x2003, 0x2004,
    0x2005, 0x2006, 0x2007, 0x2008, 0x2009, 0x200a, 0x2028, 0x2029, 0x202f, 0x205f, 0x3000}

  lemma SpacesAre(c: char)
    ensures IsSpace(c) <==> c as int in SPACES
  {}

  /** A text without them. */
  ghost function Unspaced(s: string): string {
    if s == "" then "" else (if s[0] as int in SPACES then "" else [s[0]]) + Unspaced(s[1..])
  }

  lemma {:induction false} StripUnspaces(s: string)
    ensures Strip(s) == Unspaced(s)
  {
    if s != "" {
      SpacesAre(s[0]);
      StripUnspaces(s[1..]);
    }
  }

  /** What `use` paths are written with. */
  predicate PathChar(c: char) {
    'a' <= c <= 'z' || 'A' <= c <= 'Z' || '0' <= c <= '9' || c in "_:*{},"
  }

  /** Text in path characters and blanks loses its blanks, and nothing else. */
  lemma {:induction false} StripPathText(s: string)
    requires forall i :: 0 <= i < |s| ==> PathChar(s[i]) || s[i] in " \t\n\r"
    ensures forall i :: 0 <= i < |Strip(s)| ==> PathChar(Strip(s)[i])
    ensures (forall i :: 0 <= i < |s| ==> PathChar(s[i])) ==> Strip(s) == s
  {
    if s != "" {
      StripPathText(s[1..]);
      assert PathChar(s[0]) ==> !IsSpace(s[0]);
      if forall i :: 0 <= i < |s| ==> PathChar(s[i]) {
        assert PathChar(s[0]);
        assert forall i :: 0 <= i < |s[1..]| ==> PathChar(s[1..][i]);
        assert s == [s[0]] + s[1..];
      }
    }
  }

  function Strip(s: string): string {
    if s == "" then "" else (if IsSpace(s[0]) then "" else [s[0]]) + Strip(s[1..])
  }

  /** `+1` for an opening brace, `-1` for a closing one. */
  function Delta(c: char): int { if c == '{' then 1 else if c == '}' then -1 else 0 }

  function OpenCount(s: string): nat {
    if s == "" then 0 else (if s[0] == '{' then 1 else 0) + OpenCount(s[1..])
  }

  function CloseCount(s: string): nat {
    if s == "" then 0 else (if s[0] == '}' then 1 else 0) + CloseCount(s[1..])
  }

  /** How many groups are open after a text. */
  ghost function Balance(s: string): int { OpenCount(s) - CloseCount(s) }

  lemma BalanceStep(s: string, j: nat)
    requires 0 < j <= |s|
    ensures Balance(s[..j]) == Delta(s[0]) + Balance(s[1..][..j - 1])
  {
    assert s[..j][1..] == s[1..][..j - 1];
  }

  lemma {:induction false} CountConcat(s: string, t: string)
    ensures OpenCount(s + t) == OpenCount(s) + OpenCount(t)
  {
    if s == "" {
      assert s + t == t;
    } else {
      assert (s + t)[1..] == s[1..] + t;
      CountConcat(s[1..], t);
    }
  }

  lemma {:induction false} StripCount(s: string)
    ensures OpenCount(Strip(s)) == OpenCount(s)
  {
    if s != "" {
      StripCount(s[1..]);
      CountConcat(if IsSpace(s[0]) then "" else [s[0]], Strip(s[1..]));
      assert "" + Strip(s[1..]) == Strip(s[1..]);
    }
  }

  // ---------------------------------------------------------------- split_top

  /** The pieces between the commas outside braces; `cur` is the piece under way. */
  function Pieces(body: string, depth: int, cur: string): seq<string>
    decreases |body|
  {
    if body == "" then [cur]
    else if body[0] == ',' && depth == 0 then [cur] + Pieces(body[1..], depth, "")
    else Pieces(body[1..], depth + Delta(body[0]), cur + [body[0]])
  }

  function NonEmpty(parts: seq<string>): seq<string> {
    if parts == [] then [] else (if parts[0] == "" then [] else [parts[0]]) + NonEmpty(parts[1..])
  }

  /** A comma outside all groups. */
  ghost predicate IsCut(body: string, depth: int, i: int) {
    0 <= i < |body| && body[i] == ',' && depth + Balance(body[..i]) == 0
  }

  /** The pieces, on every text: up to the first comma outside all groups, and then the pieces of
      the rest. */
  lemma {:induction false} PiecesAre(body: string, depth: int, cur: string, i: nat)
    requires forall j :: 0 <= j < i ==> !IsCut(body, depth, j)
    ensures i == |body| ==> Pieces(body, depth, cur) == [cur + body]
    ensures IsCut(body, depth, i) ==> Pieces(body, depth, cur) == [cur + body[..i]] + Pieces(body[i + 1..], 0, "")
    decreases |body|
  {
    if body != "" && i > 0 {
      var c, rest := body[0], body[1..];
      assert body[..0] == "";
      assert !IsCut(body, depth, 0);
      var next := depth + Delta(c);
      forall j | 0 <= j < i - 1 ensures !IsCut(rest, next, j) {
        assert !IsCut(body, depth, j + 1);
        if j < |rest| {
          BalanceStep(body, j + 1);
        }
      }
      if i <= |body| {
        BalanceStep(body, i);
      }
      PiecesAre(rest, next, cur + [c], i - 1);
      assert cur + body == cur + [c] + rest;
      if i < |body| {
        assert cur + body[..i] == cur + [c] + rest[..i - 1];
        assert rest[i - 1 + 1..] == body[i + 1..];
      }
    } else if body != "" {
      assert body[..0] == "" && cur + "" == cur;
    } else {
      assert cur + body == cur;
    }
  }

  function SplitTopF(body: string): seq<string> { NonEmpty(Pieces(body, 0, "")) }

  lemma {:induction false} NonEmptyAppend(a: seq<string>, b: seq<string>)
    ensures NonEmpty(a + b) == NonEmpty(a) + NonEmpty(b)
  {
    if a == [] {
      assert a + b == b;
    } else {
      assert (a + b)[1..] == a[1..] + b;
      NonEmptyAppend(a[1..], b);
    }
  }

  lemma {:induction false} NonEmptyMembers(parts: seq<string>, p: string)
    requires p in NonEmpty(parts)
    ensures p in parts
  {
    if parts[0] != p {
      NonEmptyMembers(parts[1..], p);
    }
  }

  /** No piece has more braces than the text. */
  lemma {:induction false} PieceCount(body: string, depth: int, cur: string, p: string)
    requires p in Pieces(body, depth, cur)
    ensures OpenCount(p) <= OpenCount(cur) + OpenCount(body)
    decreases |body|
  {
    if body == "" {
    } else if body[0] == ',' && depth == 0 {
      if p != cur {
        PieceCount(body[1..], depth, "", p);
      }
    } else {
      PieceCount(body[1..], depth + Delta(body[0]), cur + [body[0]], p);
      CountConcat(cur, [body[0]]);
    }
  }

  /** One turn of the loop over the characters. */
  lemma NextPiece(body: string, i: nat, depth: int, start: nat)
    requires start <= i < |body|
    ensures Pieces(body[i..], depth, body[start..i])
            == if body[i] == ',' && depth == 0 then [body[start..i]] + Pieces(body[i + 1..], depth, body[i + 1..i + 1])
               else Pieces(body[i + 1..], depth + Delta(body[i]), body[start..i + 1])
  {
    assert body[i..][0] == body[i] && body[i..][1..] == body[i + 1..];
    assert body[start..i + 1] == body[start..i] + [body[i]] && body[i + 1..i + 1] == "";
  }

  method CutPieces(body: string) returns (pieces: seq<string>)
    ensures pieces == Pieces(body, 0, "")
  {
    pieces := [];
    var depth, start := 0, 0;
    assert body[0..] == body && body[0..0] == "";
    for i := 0 to |body|
      invariant 0 <= start <= i && pieces + Pieces(body[i..], depth, body[start..i]) == Pieces(body, 0, "")
    {
      NextPiece(body, i, depth, start);
      depth := depth + Delta(body[i]);
      if body[i] == ',' && depth == 0 {
        pieces := pieces + [body[start..i]];
        start := i + 1;
      }
    }
    assert body[|body|..] == "" && body[start..|body|] == body[start..];
    pieces := pieces + [body[start..]];
  }

  /** `split_top`. */
  method SplitTop(body: string) returns (parts: seq<string>)
    ensures parts == SplitTopF(body)
  {
    var pieces := CutPieces(body);
    parts := [];
    assert pieces[0..] == pieces;
    for i := 0 to |pieces|
      invariant parts + NonEmpty(pieces[i..]) == NonEmpty(pieces)
    {
      assert pieces[i..][1..] == pieces[i + 1..];
      if pieces[i] != "" {
        parts := parts + [pieces[i]];
      }
    }
  }

  // ---------------------------------------------------------------- expand

  /** How far to the brace that brings the depth back to 0. */
  function CloseIn(t: string, depth: int): Option<nat> {
    if t == "" then None
    else if depth + Delta(t[0]) == 0 then Some(0)
    else
      var r := CloseIn(t[1..], depth + Delta(t[0]));
      if r.None? then None else Some(r.value + 1)
  }

  /** Where a group ends, on every text: at the first place where all that it opened is closed. */
  lemma {:induction false} CloseInIs(t: string, depth: int)
    ensures match CloseIn(t, depth)
            case None => forall j :: 0 < j <= |t| ==> depth + Balance(t[..j]) != 0
            case Some(k) =>
              k < |t| && depth + Balance(t[..k + 1]) == 0 && forall j :: 0 < j <= k ==> depth + Balance(t[..j]) != 0
  {
    if t != "" {
      assert t[..0] == "" && t[1..][..0] == "";
      CloseInIs(t[1..], depth + Delta(t[0]));
      forall j | 0 < j <= |t| ensures Balance(t[..j]) == Delta(t[0]) + Balance(t[1..][..j - 1]) {
        BalanceStep(t, j);
      }
    }
  }

  /** A group that is never closed ends with the text, and its last character is lost. */
  lemma UnclosedGroup(s: string, open: nat)
    requires open < |s| && s[open] == '{' && forall j :: 0 < j <= |s| - open ==> Balance(s[open..][..j]) > 0
    ensures Body(s, open) == (if open + 1 < |s| then s[open + 1..|s| - 1] else "") && Suffix(s, open) == ""
  {
    CloseInIs(s[open..], 0);
  }

  function FindOpen(s: string): Option<nat> {
    if s == "" then None
    else if s[0] == '{' then Some(0)
    else
      var r := FindOpen(s[1..]);
      if r.None? then None else Some(r.value + 1)
  }

  lemma {:induction false} FindOpenIs(s: string)
    ensures match FindOpen(s)
            case None => '{' !in s
            case Some(k) => k < |s| && s[k] == '{' && '{' !in s[..k]
  {
    if s != "" && s[0] != '{' {
      FindOpenIs(s[1..]);
      match FindOpen(s[1..])
      case None => assert s == [s[0]] + s[1..];
      case Some(k) => assert s[..k + 1] == [s[0]] + s[1..][..k];
    }
  }

  /** Where the first group ends: at its closing brace, or with the text. */
  function CloseAt(s: string, open: nat): int
    requires open < |s|
  {
    var r := CloseIn(s[open..], 0);
    if r.None? then |s| - 1 else open + r.value
  }

  lemma {:induction false} CloseInBound(t: string, depth: int)
    ensures CloseIn(t, depth).Some? ==> CloseIn(t, depth).value < |t|
  {
    if t != "" {
      CloseInBound(t[1..], depth + Delta(t[0]));
    }
  }

  lemma CloseAtBound(s: string, open: nat)
    requires open < |s| && s[open] == '{'
    ensures open <= CloseAt(s, open) < |s|
    ensures CloseAt(s, open) == open ==> open == |s| - 1
  {
    CloseInBound(s[open..], 0);
  }

  function Body(s: string, open: nat): string
    requires open < |s| && s[open] == '{'
  {
    CloseAtBound(s, open);
    if CloseAt(s, open) == open then "" else s[open + 1..CloseAt(s, open)]
  }

  function Suffix(s: string, open: nat): string
    requires open < |s| && s[open] == '{'
  {
    CloseAtBound(s, open);
    s[CloseAt(s, open) + 1..]
  }

  /** One group taken apart leaves fewer opening braces: the recursion ends. */
  lemma FewerBraces(s: string, open: nat, p: string)
    requires open < |s| && s[open] == '{' && p in SplitTopF(Body(s, open))
    ensures OpenCount(s[..open] + p + Suffix(s, open)) < OpenCount(s)
  {
    var close := CloseAt(s, open);
    CloseAtBound(s, open);
    NonEmptyMembers(Pieces(Body(s, open), 0, ""), p);
    PieceCount(Body(s, open), 0, "", p);
    CountConcat(s[..open] + p, Suffix(s, open));
    CountConcat(s[..open], p);
    assert SplitTopF("") == [];
    Parts(s, open, close, Body(s, open), Suffix(s, open));
  }

  lemma Parts(s: string, open: nat, close: nat, body: string, suffix: string)
    requires open < close < |s| && s[open] == '{' && body == s[open + 1..close] && suffix == s[close + 1..]
    ensures OpenCount(s) > OpenCount(s[..open]) + OpenCount(body) + OpenCount(suffix)
  {
    var tail := s[close..close + 1] + suffix;
    assert s == s[..open] + ("{" + (body + tail));
    CountConcat(s[..open], "{" + (body + tail));
    CountConcat("{", body + tail);
    CountConcat(body, tail);
    CountConcat(s[close..close + 1], suffix);
    assert OpenCount("{") == 1;
  }

  function ExpandF(path: string): seq<string>
    decreases OpenCount(path)
  {
    var s := Strip(path);
    StripCount(path);
    FindOpenIs(s);
    match FindOpen(s)
    case None => [s]
    case Some(open) =>
      assert forall p :: p in SplitTopF(Body(s, open))
               ==> OpenCount(s[..open] + p + Suffix(s, open)) < OpenCount(path) by {
        forall p | p in SplitTopF(Body(s, open)) ensures OpenCount(s[..open] + p + Suffix(s, open)) < OpenCount(path) {
          FewerBraces(s, open, p);
        }
      }
      ExpandAll(s[..open], SplitTopF(Body(s, open)), Suffix(s, open), OpenCount(path))
  }

  function ExpandAll(prefix: string, parts: seq<string>, suffix: string, bound: nat): seq<string>
    requires forall p :: p in parts ==> OpenCount(prefix + p + suffix) < bound
    decreases bound, |parts|
  {
    if parts == [] then []
    else
      assert parts[0] in parts;
      ExpandF(prefix + parts[0] + suffix) + ExpandAll(prefix, parts[1..], suffix, bound)
  }

  /** The scan for the closing brace. */
  method FindClose(path: string, openAt: nat) returns (close: int)
    requires openAt < |path| && path[openAt] == '{'
    ensures close == CloseAt(path, openAt)
  {
    var depth := 0;
    close := |path| - 1;
    for j := openAt to |path|
      invariant close == |path| - 1
      invariant CloseAt(path, openAt) == var r := CloseIn(path[j..], depth); if r.None? then |path| - 1 else j + r.value
    {
      assert path[j..][0] == path[j] && path[j..][1..] == path[j + 1..];
      depth := depth + Delta(path[j]);
      if depth == 0 {
        return j;
      }
    }
  }

  method StripSpaces(path: string) returns (s: string)
    ensures s == Strip(path)
  {
    s := "";
    assert path[0..] == path;
    for i := 0 to |path|
      invariant s + Strip(path[i..]) == Strip(path)
    {
      assert path[i..][0] == path[i] && path[i..][1..] == path[i + 1..];
      if !IsSpace(path[i]) {
        s := s + [path[i]];
      }
    }
  }

  method Find(path: string) returns (r: Option<nat>)
    ensures r == FindOpen(path)
  {
    assert path[0..] == path;
    for i := 0 to |path|
      invariant FindOpen(path) == var r := FindOpen(path[i..]); if r.None? then None else Some(i + r.value)
    {
      assert path[i..][0] == path[i] && path[i..][1..] == path[i + 1..];
      if path[i] == '{' {
        return Some(i);
      }
    }
    r := None;
  }

  /** `expand`, on any text. */
  method Expand(path: string) returns (leaves: seq<string>)
    ensures leaves == ExpandF(path)
    decreases OpenCount(path)
  {
    var s := StripSpaces(path);
    StripCount(path);
    FindOpenIs(s);
    var found := Find(s);
    if found.None? {
      return [s];
    }
    var openAt := found.value;
    var close := FindClose(s, openAt);
    CloseAtBound(s, openAt);
    var prefix, suffix := s[..openAt], s[close + 1..];
    var parts := SplitTop(if close == openAt then "" else s[openAt + 1..close]);
    assert parts == SplitTopF(Body(s, openAt)) && suffix == Suffix(s, openAt);
    forall p | p in parts ensures OpenCount(prefix + p + suffix) < OpenCount(path) {
      FewerBraces(s, openAt, p);
    }
    leaves := ExpandParts(prefix, parts, suffix, OpenCount(path));
  }

  method ExpandParts(prefix: string, parts: seq<string>, suffix: string, ghost bound: nat) returns (leaves: seq<string>)
    requires forall p :: p in parts ==> OpenCount(prefix + p + suffix) < bound
    ensures leaves == ExpandAll(prefix, parts, suffix, bound)
    decreases bound, 0
  {
    leaves := [];
    assert parts[0..] == parts;
    for i := 0 to |parts|
      invariant leaves + ExpandAll(prefix, parts[i..], suffix, bound) == ExpandAll(prefix, parts, suffix, bound)
    {
      assert parts[i..][1..] == parts[i + 1..] && parts[i] in parts;
      var more := Expand(prefix + parts[i] + suffix);
      leaves := leaves + more;
    }
  }

  /** Whatever the text, no result has an opening brace left. */
  lemma {:induction false} ExpandedHasNoOpen(path: string, leaf: string)
    requires leaf in ExpandF(path)
    ensures '{' !in leaf
    decreases OpenCount(path)
  {
    var s := Strip(path);
    StripCount(path);
    FindOpenIs(s);
    if FindOpen(s).Some? {
      var open := FindOpen(s).value;
      forall p | p in SplitTopF(Body(s, open)) ensures OpenCount(s[..open] + p + Suffix(s, open)) < OpenCount(path) {
        FewerBraces(s, open, p);
      }
      AllHaveNoOpen(s[..open], SplitTopF(Body(s, open)), Suffix(s, open), OpenCount(path), leaf);
    }
  }

  lemma {:induction false} AllHaveNoOpen(prefix: string, parts: seq<string>, suffix: string, bound: nat, leaf: string)
    requires (forall p :: p in parts ==> OpenCount(prefix + p + suffix) < bound)
             && leaf in ExpandAll(prefix, parts, suffix, bound)
    ensures '{' !in leaf
    decreases bound, |parts|
  {
    assert parts[0] in parts;
    if leaf in ExpandF(prefix + parts[0] + suffix) {
      ExpandedHasNoOpen(prefix + parts[0] + suffix, leaf);
    } else {
      AllHaveNoOpen(prefix, parts[1..], suffix, bound, leaf);
    }
  }
}
