/** _split_top_level: cutting a CREATE TABLE body at its top-level commas. */
module DdlSplit {
  import opened Text

  function Nesting(depth: int, c: char): int {
    if c == '(' then depth + 1 else if c == ')' then depth - 1 else depth
  }

  /** The pieces before they are trimmed, `current` being the piece under way. */
  function Pieces(body: string, depth: int, current: string): seq<string>
    decreases |body|
  {
    if body == "" then (if current != "" then [current] else [])
    else
      var d := Nesting(depth, body[0]);
      if body[0] == ',' && d == 0 then [current] + Pieces(body[1..], d, "")
      else Pieces(body[1..], d, current + [body[0]])
  }

  /** [p.strip() for p in parts if p.strip()] */
  function Cleaned(parts: seq<string>): seq<string> {
    if parts == [] then [] else (if Strip(parts[0]) != "" then [Strip(parts[0])] else []) + Cleaned(parts[1..])
  }

  function SplitTopLevel(body: string): seq<string> { Cleaned(Pieces(body, 0, "")) }

  lemma NextPiece(body: string, i: nat, depth: int, current: string)
    requires i < |body|
    ensures
      var d := Nesting(depth, body[i]);
      Pieces(body[i..], depth, current)
      == if body[i] == ',' && d == 0 then [current] + Pieces(body[i + 1..], d, "")
         else Pieces(body[i + 1..], d, current + [body[i]])
  {
    assert body[i..][0] == body[i] && body[i..][1..] == body[i + 1..];
  }

  /** The loop over the characters. */
  method CutPieces(body: string) returns (parts: seq<string>)
    ensures parts == Pieces(body, 0, "")
  {
    var depth, current := 0, "";
    parts := [];
    for i := 0 to |body|
      invariant parts + Pieces(body[i..], depth, current) == Pieces(body, 0, "")
    {
      hide Pieces;
      NextPiece(body, i, depth, current);
      var ch := body[i];
      if ch == '(' { depth := depth + 1; }
      else if ch == ')' { depth := depth - 1; }
      if ch == ',' && depth == 0 {
        assert parts + ([current] + Pieces(body[i + 1..], depth, ""))
          == (parts + [current]) + Pieces(body[i + 1..], depth, "");
        parts := parts + [current];
        current := "";
      } else {
        current := current + [ch];
      }
    }
    if current != "" { parts := parts + [current]; }
  }

  lemma NextCleaned(parts: seq<string>, i: nat)
    requires i < |parts|
    ensures Cleaned(parts[i..])
            == (if Strip(parts[i]) != "" then [Strip(parts[i])] else []) + Cleaned(parts[i + 1..])
  {
    hide Strip;
    assert parts[i..][0] == parts[i] && parts[i..][1..] == parts[i + 1..];
  }

  method Split(body: string) returns (r: seq<string>)
    ensures r == SplitTopLevel(body)
  {
    hide Pieces, Strip, Cleaned;
    var parts := CutPieces(body);
    r := [];
    assert parts[0..] == parts;
    for i := 0 to |parts|
      invariant r + Cleaned(parts[i..]) == Cleaned(parts)
    {
      NextCleaned(parts, i);
      var p := Strip(parts[i]);
      if p != "" {
        assert r + ([p] + Cleaned(parts[i + 1..])) == (r + [p]) + Cleaned(parts[i + 1..]);
        r := r + [p];
      }
    }
    assert parts[|parts|..] == [] && r + [] == r;
    NothingCleaned();
  }

  lemma NothingCleaned()
    ensures Cleaned([]) == []
  {
  }

  lemma {:induction false} CleanedConcat(a: seq<string>, b: seq<string>)
    ensures Cleaned(a + b) == Cleaned(a) + Cleaned(b)
  {
    hide Strip;
    if a == [] {
      assert a + b == b;
    } else {
      assert (a + b)[1..] == a[1..] + b;
      CleanedConcat(a[1..], b);
    }
  }

  /** Cleaning keeps exactly the pieces that are not blank, trimmed and in order. */
  lemma {:induction false} CleanedMeaning(parts: seq<string>) returns (at: seq<nat>)
    ensures |at| == |Cleaned(parts)|
    ensures forall i :: 0 <= i < |at| ==> at[i] < |parts| && Cleaned(parts)[i] == Strip(parts[at[i]])
    ensures forall i, j :: 0 <= i < j < |at| ==> at[i] < at[j]
    ensures forall k :: 0 <= k < |parts| ==> (k in at <==> Strip(parts[k]) != "")
    decreases |parts|
  {
    at := [];
    if parts != [] {
      var last := |parts| - 1;
      at := CleanedMeaning(parts[..last]);
      assert parts == parts[..last] + [parts[last]];
      CleanedConcat(parts[..last], [parts[last]]);
      assert Cleaned([parts[last]]) == if Strip(parts[last]) != "" then [Strip(parts[last])] else [];
      hide Cleaned, Strip;
      assert forall k :: k in at ==> k < last;
      if Strip(parts[last]) != "" { at := at + [last]; }
    }
  }

  /** ",".join(items) */
  function Join(items: seq<string>): string {
    if items == [] then "" else if |items| == 1 then items[0] else items[0] + "," + Join(items[1..])
  }

  // ---- Joining undoes splitting ------------------------------------------------------

  lemma JoinCons(first: string, rest: seq<string>)
    requires rest != []
    ensures Join([first] + rest) == first + "," + Join(rest)
  {
    assert ([first] + rest)[1..] == rest;
  }

  /** `joined` is the text, or the text without a separator at its very end. */
  predicate Rebuilds(joined: string, text: string) {
    joined == text || (text != "" && text[|text| - 1] == ',' && joined == text[..|text| - 1])
  }

  lemma RebuildsAfter(before: string, joined: string, text: string)
    requires Rebuilds(joined, text)
    ensures Rebuilds(before + joined, before + text)
  {
    if joined != text { assert (before + text)[..|before + text| - 1] == before + joined; }
  }

  lemma EndRebuilds(depth: int, current: string)
    ensures Rebuilds(Join(Pieces("", depth, current)), current + "")
  {
    assert current + "" == current;
  }

  /** The untrimmed pieces joined again are the body, except that a separator at
      the very end leaves no empty last piece. */
  lemma {:induction false} PiecesRebuild(body: string, depth: int, current: string)
    ensures Rebuilds(Join(Pieces(body, depth, current)), current + body)
    decreases |body|
  {
    hide Rebuilds, Join;
    if body == "" {
      EndRebuilds(depth, current);
    } else {
      var d := Nesting(depth, body[0]);
      var tail := body[1..];
      if body[0] == ',' && d == 0 {
        PiecesRebuild(tail, d, "");
        assert "" + tail == tail;
        PiecesAfterCut(tail, d, current);
        assert current + body == current + "," + tail;
      } else {
        PiecesRebuild(tail, d, current + [body[0]]);
        assert current + body == current + [body[0]] + tail;
      }
    }
  }

  lemma PiecesAfterCut(tail: string, depth: int, current: string)
    requires Rebuilds(Join(Pieces(tail, depth, "")), tail)
    ensures Rebuilds(Join([current] + Pieces(tail, depth, "")), current + "," + tail)
  {
    var rest := Pieces(tail, depth, "");
    if rest == [] {
      NoPieces(tail, depth, "");
      assert (current + "," + tail)[..|current|] == current;
    } else {
      hide Pieces;
      JoinCons(current, rest);
      RebuildsAfter(current + ",", Join(rest), tail);
    }
  }

  lemma {:induction false} NoPieces(body: string, depth: int, current: string)
    ensures Pieces(body, depth, current) == [] ==> body == "" && current == ""
    decreases |body|
  {
    if body != "" && !(body[0] == ',' && Nesting(depth, body[0]) == 0) {
      NoPieces(body[1..], Nesting(depth, body[0]), current + [body[0]]);
    }
  }

  lemma SplitLosesNothing(body: string)
    ensures Join(Pieces(body, 0, "")) == body || Join(Pieces(body, 0, "")) + "," == body
  {
    hide Pieces, Join;
    PiecesRebuild(body, 0, "");
    assert "" + body == body;
  }

  // ---- Splitting undoes joining --------------------------------------------------------

  /** The nesting depth after the text. */
  function Depth(s: string, depth: int): int {
    if s == "" then depth else Depth(s[1..], Nesting(depth, s[0]))
  }

  /** No separator at depth 0. */
  predicate Unsplit(s: string, depth: int) {
    s == "" || (!(s[0] == ',' && Nesting(depth, s[0]) == 0) && Unsplit(s[1..], Nesting(depth, s[0])))
  }

  /** The opening parentheses of a text less its closing ones. */
  function Opened(s: string): int { multiset(s)['('] as int - multiset(s)[')'] as int }

  lemma {:induction false} DepthCounts(s: string, depth: int)
    ensures Depth(s, depth) == depth + Opened(s)
  {
    if s != "" {
      assert s == [s[0]] + s[1..];
      DepthCounts(s[1..], Nesting(depth, s[0]));
    }
  }

  /** No comma has as many opening as closing parentheses before it. */
  lemma {:induction false} UnsplitMeaning(s: string, depth: int)
    ensures Unsplit(s, depth) <==> forall i :: 0 <= i < |s| && s[i] == ',' ==> depth + Opened(s[..i]) != 0
  {
    if s != "" {
      var d := Nesting(depth, s[0]);
      UnsplitMeaning(s[1..], d);
      assert s[..0] == "";
      forall i | 1 <= i < |s| ensures s[i] == s[1..][i - 1] && depth + Opened(s[..i]) == d + Opened(s[1..][..i - 1]) {
        assert s[..i] == [s[0]] + s[1..][..i - 1];
      }
      hide Opened;
      if Unsplit(s, depth) {
        forall i | 0 <= i < |s| && s[i] == ',' ensures depth + Opened(s[..i]) != 0 {
          if i > 0 { assert s[1..][i - 1] == ','; }
        }
      }
      if forall i :: 0 <= i < |s| && s[i] == ',' ==> depth + Opened(s[..i]) != 0 {
        forall i | 0 <= i < |s[1..]| && s[1..][i] == ',' ensures d + Opened(s[1..][..i]) != 0 {
          assert s[i + 1] == ',' && s[i + 1] == s[1..][i + 1 - 1];
        }
      }
    }
  }

  lemma {:induction false} UnsplitSnoc(s: string, c: char, depth: int)
    requires Unsplit(s, depth) && !(c == ',' && Depth(s, depth) == 0)
    ensures Unsplit(s + [c], depth) && Depth(s + [c], depth) == Nesting(Depth(s, depth), c)
    decreases |s|
  {
    if s == "" {
      assert s + [c] == [c] && [c][1..] == "";
    } else {
      assert (s + [c])[1..] == s[1..] + [c];
      UnsplitSnoc(s[1..], c, Nesting(depth, s[0]));
    }
  }

  /** Cuts are made at every top-level separator and nowhere else: no piece holds
      one, and every piece but the last ends at depth 0. */
  lemma {:induction false} PiecesAreUnsplit(body: string, depth: int, current: string)
    requires Unsplit(current, 0) && Depth(current, 0) == depth
    ensures forall i :: 0 <= i < |Pieces(body, depth, current)| ==> Unsplit(Pieces(body, depth, current)[i], 0)
    ensures forall i :: 0 <= i < |Pieces(body, depth, current)| - 1 ==> Depth(Pieces(body, depth, current)[i], 0) == 0
    decreases |body|
  {
    if body != "" {
      var d := Nesting(depth, body[0]);
      if body[0] == ',' && d == 0 {
        PiecesAreUnsplit(body[1..], d, "");
        var rest := Pieces(body[1..], d, "");
        assert Pieces(body, depth, current) == [current] + rest;
        hide Pieces;
        assert forall i :: 0 < i <= |rest| ==> ([current] + rest)[i] == rest[i - 1];
      } else {
        UnsplitSnoc(current, body[0], 0);
        PiecesAreUnsplit(body[1..], d, current + [body[0]]);
      }
    }
  }

  /** A definition as it stands in a CREATE TABLE body. */
  predicate Item(s: string) { s != "" && Trimmed(s) && Depth(s, 0) == 0 && Unsplit(s, 0) }

  lemma {:induction false} ItemIsKeptWhole(s: string, rest: string, depth: int, current: string)
    requires Unsplit(s, depth)
    ensures Pieces(s + rest, depth, current) == Pieces(rest, Depth(s, depth), current + s)
    decreases |s|
  {
    if s == "" {
      assert s + rest == rest && current + s == current;
    } else {
      assert (s + rest)[1..] == s[1..] + rest;
      ItemIsKeptWhole(s[1..], rest, Nesting(depth, s[0]), current + [s[0]]);
      assert current + [s[0]] + s[1..] == current + s;
    }
  }

  lemma {:induction false} PiecesOfJoin(items: seq<string>)
    requires forall i :: 0 <= i < |items| ==> Item(items[i])
    ensures Pieces(Join(items), 0, "") == items
    decreases |items|
  {
    if |items| == 1 {
      ItemIsKeptWhole(items[0], "", 0, "");
      assert items[0] + "" == items[0] && "" + items[0] == items[0];
    } else if |items| > 1 {
      var rest := Join(items[1..]);
      PiecesOfJoin(items[1..]);
      ItemIsKeptWhole(items[0], "," + rest, 0, "");
      PiecesAtComma(items[0], rest);
      hide Pieces, Item;
      assert items[0] + "," + rest == items[0] + ("," + rest) && "" + items[0] == items[0];
      assert items == [items[0]] + items[1..];
    }
  }

  lemma PiecesAtComma(first: string, rest: string)
    ensures Pieces("," + rest, 0, first) == [first] + Pieces(rest, 0, "")
  {
    assert ("," + rest)[1..] == rest;
  }

  lemma {:induction false} CleanedItems(items: seq<string>)
    requires forall i :: 0 <= i < |items| ==> Item(items[i])
    ensures Cleaned(items) == items
  {
    if items != [] {
      StripOfTrimmed(items[0]);
      CleanedItems(items[1..]);
      assert items == [items[0]] + items[1..];
    }
  }

  /** Splitting a joined list of definitions gives back the list. */
  lemma SplitUndoesJoin(items: seq<string>)
    requires forall i :: 0 <= i < |items| ==> Item(items[i])
    ensures SplitTopLevel(Join(items)) == items
  {
    PiecesOfJoin(items);
    CleanedItems(items);
  }
}
