/**
 * The scrolling band of service names (`MarqueeBand`): the text is split
 * at " / ", blank pieces are dropped, and the resulting words are repeated
 * four times so the band can loop without a gap.
 */
module Marquee {
  import Arithmetic

  const Separator := " / "
  const Copies := 4

  /**
   * `s.split(sep)` for a non-empty string separator: the pieces between
   * the occurrences of `sep` found scanning from the left. `cur` is the
   * piece read so far.
   */
  function SplitFrom(s: string, sep: string, cur: string): (parts: seq<string>)
    requires |sep| > 0
    ensures |parts| >= 1
    decreases |s|
  {
    if |s| == 0 then [cur]
    else if sep <= s then [cur] + SplitFrom(s[|sep|..], sep, "")
    else SplitFrom(s[1..], sep, cur + [s[0]])
  }

  function Split(s: string, sep: string): (parts: seq<string>)
    requires |sep| > 0
    ensures |parts| >= 1
  {
    SplitFrom(s, sep, "")
  }

  /** The pieces glued back together with the separator between them. */
  function Join(parts: seq<string>, sep: string): string
    requires |parts| >= 1
  {
    if |parts| == 1 then parts[0] else parts[0] + sep + Join(parts[1..], sep)
  }

  /** Splitting loses nothing: joining the pieces with the separator gives the text back. */
  lemma {:induction false} JoinSplitFrom(s: string, sep: string, cur: string)
    requires |sep| > 0
    ensures Join(SplitFrom(s, sep, cur), sep) == cur + s
    decreases |s|
  {
    if |s| == 0 {
      assert cur + s == cur;
    } else if sep <= s {
      var rest := SplitFrom(s[|sep|..], sep, "");
      JoinSplitFrom(s[|sep|..], sep, "");
      assert ([cur] + rest)[1..] == rest;
      assert s == sep + s[|sep|..];
      assert Join([cur] + rest, sep) == cur + sep + ("" + s[|sep|..]);
    } else {
      JoinSplitFrom(s[1..], sep, cur + [s[0]]);
      assert s == [s[0]] + s[1..];
    }
  }

  lemma SplitRoundTrip(s: string, sep: string)
    requires |sep| > 0
    ensures Join(Split(s, sep), sep) == s
  {
    JoinSplitFrom(s, sep, "");
  }

  /** The separator starts at none of the first `n` positions of `t`. */
  predicate NoMatchBefore(t: string, sep: string, n: int)
  {
    forall i :: 0 <= i < n && i <= |t| ==> !(sep <= t[i..])
  }

  /**
   * Every cut is at the first occurrence of the separator: in the text from
   * piece k on, the separator starts at no position inside piece k.
   */
  predicate Leftmost(parts: seq<string>, sep: string)
  {
    forall k :: 0 <= k < |parts| ==> NoMatchBefore(Join(parts[k..], sep), sep, |parts[k]|)
  }

  lemma LeftmostCons(cur: string, rest: seq<string>, sep: string)
    requires |rest| >= 1 && Leftmost(rest, sep)
    requires NoMatchBefore(cur + sep + Join(rest, sep), sep, |cur|)
    ensures Leftmost([cur] + rest, sep)
  {
    var parts := [cur] + rest;
    forall k | 0 <= k < |parts|
      ensures NoMatchBefore(Join(parts[k..], sep), sep, |parts[k]|)
    {
      if k == 0 {
        assert parts[0..] == parts && parts[0] == cur && parts[1..] == rest;
        assert Join(parts, sep) == cur + sep + Join(rest, sep);
      } else {
        var t := Join(rest[k - 1..], sep);
        assert NoMatchBefore(t, sep, |rest[k - 1]|);
        assert parts[k..] == rest[k - 1..] && parts[k] == rest[k - 1];
        assert Join(parts[k..], sep) == t;
      }
    }
  }

  /** The scan is leftmost, provided `cur` holds no occurrence the scan has passed over. */
  lemma {:induction false} SplitFromLeftmost(s: string, sep: string, cur: string)
    requires |sep| > 0
    requires NoMatchBefore(cur + s, sep, |cur|)
    ensures Leftmost(SplitFrom(s, sep, cur), sep)
    decreases |s|
  {
    if |s| == 0 {
      var parts := SplitFrom(s, sep, cur);
      assert parts == [cur] && parts[0..] == parts;
      assert cur + s == cur;
    } else if sep <= s {
      var rest := SplitFrom(s[|sep|..], sep, "");
      SplitFromLeftmost(s[|sep|..], sep, "");
      JoinSplitFrom(s[|sep|..], sep, "");
      assert s == sep + s[|sep|..];
      assert cur + s == cur + sep + Join(rest, sep);
      LeftmostCons(cur, rest, sep);
    } else {
      assert cur + s == (cur + [s[0]]) + s[1..];
      assert (cur + s)[|cur|..] == s;
      SplitFromLeftmost(s[1..], sep, cur + [s[0]]);
    }
  }

  /** A piece is a prefix of the text from that piece on. */
  lemma JoinStartsWithHead(parts: seq<string>, sep: string)
    requires |parts| >= 1
    ensures parts[0] <= Join(parts, sep)
  {
  }

  /**
   * `split` cuts at every occurrence, scanning from the left: no piece
   * contains the separator, and each cut is at the first occurrence after
   * the previous one.
   */
  lemma SplitPiecesAreLeftmost(s: string, sep: string)
    requires |sep| > 0
    ensures Leftmost(Split(s, sep), sep)
    ensures forall k :: 0 <= k < |Split(s, sep)| ==> NoMatchBefore(Split(s, sep)[k], sep, |Split(s, sep)[k]|)
  {
    var parts := Split(s, sep);
    SplitFromLeftmost(s, sep, "");
    forall k | 0 <= k < |parts| ensures NoMatchBefore(parts[k], sep, |parts[k]|) {
      var t := Join(parts[k..], sep);
      JoinStartsWithHead(parts[k..], sep);
      assert parts[k..][0] == parts[k];
      forall i | 0 <= i < |parts[k]| ensures !(sep <= parts[k][i..]) {
        assert parts[k][i..] <= t[i..];
      }
    }
  }

  /** WhiteSpace and LineTerminator code points as ECMAScript's `String.prototype.trim` removes them. */
  predicate IsJsSpace(c: char)
  {
    c == '\t' || c == '\n' || c == '\U{000B}' || c == '\U{000C}' || c == '\r' || c == ' ' ||
    c == '\U{00A0}' || c == '\U{1680}' || ('\U{2000}' <= c <= '\U{200A}') ||
    c == '\U{2028}' || c == '\U{2029}' || c == '\U{202F}' || c == '\U{205F}' ||
    c == '\U{3000}' || c == '\U{FEFF}'
  }

  /** `w` without its leading white space. */
  function TrimStart(w: string): (r: string)
    ensures |r| <= |w|
  {
    if w != [] && IsJsSpace(w[0]) then TrimStart(w[1..]) else w
  }

  /** `w` without its trailing white space. */
  function TrimEnd(w: string): (r: string)
    ensures |r| <= |w|
  {
    if w != [] && IsJsSpace(w[|w| - 1]) then TrimEnd(w[..|w| - 1]) else w
  }

  /** `w.trim()`. */
  function Trim(w: string): (r: string)
    ensures |r| <= |w|
  {
    TrimEnd(TrimStart(w))
  }

  /** A piece every character of which is white space. */
  predicate IsBlank(w: string)
  {
    forall j :: 0 <= j < |w| ==> IsJsSpace(w[j])
  }

  /** `r` stands at offset `a` of `w`, and every character of `w` around it is white space. */
  predicate Around(w: string, a: int, r: string)
  {
    0 <= a <= |w| - |r| && r == w[a..a + |r|] &&
    (forall j :: 0 <= j < a ==> IsJsSpace(w[j])) &&
    (forall j :: a + |r| <= j < |w| ==> IsJsSpace(w[j]))
  }

  /** TrimStart drops exactly the leading white space: what is left is a suffix that does not start with it. */
  lemma {:induction false} TrimStartDropsLeadingSpace(w: string)
    ensures Around(w, |w| - |TrimStart(w)|, TrimStart(w))
    ensures TrimStart(w) == [] || !IsJsSpace(TrimStart(w)[0])
  {
    if w != [] && IsJsSpace(w[0]) {
      TrimStartDropsLeadingSpace(w[1..]);
      var r := TrimStart(w[1..]);
      assert w[1..][|w| - 1 - |r|..] == w[|w| - |r|..];
      forall j | 0 <= j < |w| - |r| ensures IsJsSpace(w[j]) {
        if j > 0 { assert w[j] == w[1..][j - 1]; }
      }
    }
  }

  /** TrimEnd drops exactly the trailing white space: what is left is a prefix that does not end with it. */
  lemma {:induction false} TrimEndDropsTrailingSpace(w: string)
    ensures Around(w, 0, TrimEnd(w))
    ensures TrimEnd(w) == [] || !IsJsSpace(TrimEnd(w)[|TrimEnd(w)| - 1])
  {
    if w != [] && IsJsSpace(w[|w| - 1]) {
      var v := w[..|w| - 1];
      TrimEndDropsTrailingSpace(v);
      var r := TrimEnd(v);
      assert v[..|r|] == w[..|r|];
      forall j | |r| <= j < |w| ensures IsJsSpace(w[j]) {
        if j < |w| - 1 { assert w[j] == v[j]; }
      }
    }
  }

  /** `w.trim()` is a run of `w` with only white space around it, and it neither starts nor ends with white space. */
  lemma TrimDropsSurroundingSpace(w: string)
    ensures exists a :: Around(w, a, Trim(w))
    ensures Trim(w) == [] || (!IsJsSpace(Trim(w)[0]) && !IsJsSpace(Trim(w)[|Trim(w)| - 1]))
  {
    var t := TrimStart(w);
    var r := TrimEnd(t);
    var a := |w| - |t|;
    TrimStartDropsLeadingSpace(w);
    TrimEndDropsTrailingSpace(t);
    assert r == w[a..a + |r|];
    forall j | a + |r| <= j < |w| ensures IsJsSpace(w[j]) {
      assert w[j] == t[j - a];
    }
    assert r == [] || r[0] == t[0];
    assert r == Trim(w) && Around(w, a, r);
  }

  lemma {:induction false} TrimStartEmpty(w: string)
    ensures TrimStart(w) == [] <==> IsBlank(w)
  {
    if w != [] && IsJsSpace(w[0]) {
      TrimStartEmpty(w[1..]);
      assert IsBlank(w) <==> IsBlank(w[1..]) by {
        if IsBlank(w[1..]) {
          forall j | 0 <= j < |w| ensures IsJsSpace(w[j]) {
            if j > 0 { assert w[j] == w[1..][j - 1]; }
          }
        }
      }
    }
  }

  /** TrimEnd keeps a non-space first character, so it empties only what TrimStart already emptied. */
  lemma {:induction false} TrimEndKeepsFirst(w: string)
    requires w != [] && !IsJsSpace(w[0])
    ensures TrimEnd(w) != []
    decreases |w|
  {
    if IsJsSpace(w[|w| - 1]) {
      assert |w| > 1;
      TrimEndKeepsFirst(w[..|w| - 1]);
    }
  }

  /** `word.trim() !== ''` holds exactly for the pieces with a character that is not white space. */
  lemma {:induction false} TrimEmptyIffBlank(w: string)
    ensures Trim(w) == "" <==> IsBlank(w)
  {
    TrimStartEmpty(w);
    var t := TrimStart(w);
    if t != [] {
      TrimStartStopsAtWord(w);
      TrimEndKeepsFirst(t);
    }
  }

  lemma {:induction false} TrimStartStopsAtWord(w: string)
    requires TrimStart(w) != []
    ensures !IsJsSpace(TrimStart(w)[0])
  {
    if w != [] && IsJsSpace(w[0]) {
      TrimStartStopsAtWord(w[1..]);
    }
  }

  /**
   * `.filter(word => word.trim() !== '')`: the non-blank pieces, in order
   * (`TrimEmptyIffBlank` relates the test to `IsBlank`).
   */
  function NonBlank(ws: seq<string>): (r: seq<string>)
    ensures |r| <= |ws|
    ensures forall w {:trigger w in r} {:trigger w in ws} :: w in r <==> w in ws && !IsBlank(w)
    ensures forall w {:trigger multiset(r)[w]} {:trigger multiset(ws)[w]} ::
      multiset(r)[w] == if IsBlank(w) then 0 else multiset(ws)[w]
  {
    if ws == [] then []
    else
      var rest := NonBlank(ws[1..]);
      TrimEmptyIffBlank(ws[0]);
      FilterStep(ws, rest);
      if Trim(ws[0]) != "" then [ws[0]] + rest else rest
  }

  /** One step of the filter keeps the multiplicities and the members right. */
  lemma FilterStep(ws: seq<string>, rest: seq<string>)
    requires ws != []
    requires forall w {:trigger multiset(rest)[w]} {:trigger multiset(ws[1..])[w]} ::
      multiset(rest)[w] == if IsBlank(w) then 0 else multiset(ws[1..])[w]
    ensures var r := if IsBlank(ws[0]) then rest else [ws[0]] + rest;
      (forall w {:trigger w in r} {:trigger w in ws} :: w in r <==> w in ws && !IsBlank(w)) &&
      (forall w {:trigger multiset(r)[w]} {:trigger multiset(ws)[w]} ::
        multiset(r)[w] == if IsBlank(w) then 0 else multiset(ws)[w])
  {
    var r := if IsBlank(ws[0]) then rest else [ws[0]] + rest;
    assert ws == [ws[0]] + ws[1..];
    forall w ensures multiset(r)[w] == if IsBlank(w) then 0 else multiset(ws)[w] {
      assert multiset(r)[w] == (if !IsBlank(ws[0]) && w == ws[0] then 1 else 0) + multiset(rest)[w];
      assert multiset(ws)[w] == (if w == ws[0] then 1 else 0) + multiset(ws[1..])[w];
    }
    forall w ensures w in r <==> w in ws && !IsBlank(w) {
      assert w in r <==> multiset(r)[w] > 0;
      assert w in ws <==> multiset(ws)[w] > 0;
    }
  }

  /** `Array(times).fill(ws).flat()`: the words `times` times over. */
  function Repeat(ws: seq<string>, times: nat): (r: seq<string>)
    ensures |r| == times * |ws|
    ensures |ws| > 0 ==> forall j :: 0 <= j < |r| ==> r[j] == ws[j % |ws|]
  {
    if times == 0 then []
    else
      var prefix := Repeat(ws, times - 1);
      var r := prefix + ws;
      assert |r| == times * |ws| by { Arithmetic.StepProduct(times, |ws|); }
      assert |ws| > 0 ==> forall j :: |prefix| <= j < |r| ==> r[j] == ws[j % |ws|] by {
        if |ws| > 0 {
          forall j | |prefix| <= j < |r| ensures r[j] == ws[j % |ws|] {
            SlotInLastCopy(j, |ws|, times - 1);
          }
        }
      }
      r
  }

  /** An index in the last copy falls at its offset into that copy. */
  lemma SlotInLastCopy(j: int, n: int, before: nat)
    requires n > 0 && before * n <= j < before * n + n
    ensures j % n == j - before * n
  {
    Arithmetic.AddMultiple(j - before * n, before, n);
    assert j - before * n + n * before == j;
  }

  /** The words of the band: the pieces of the text between " / ", blank ones dropped. */
  function Words(text: string): (ws: seq<string>)
    ensures forall w :: w in ws <==> w in Split(text, Separator) && !IsBlank(w)
  {
    NonBlank(Split(text, Separator))
  }

  /** The items of the band: four copies of the words, item j being word j mod the word count, none blank. */
  function Items(text: string): (items: seq<string>)
    ensures |items| == Copies * |Words(text)|
    ensures |Words(text)| > 0 ==> forall j :: 0 <= j < |items| ==> items[j] == Words(text)[j % |Words(text)|]
    ensures forall j :: 0 <= j < |items| ==> !IsBlank(items[j])
  {
    var ws := Words(text);
    var items := Repeat(ws, Copies);
    assert forall j :: 0 <= j < |items| ==> items[j] in ws;
    items
  }

  /** An empty piece between two separators: "A /  / B" splits into A, "" and B. */
  lemma {:induction false} SplitWithEmptyPiece()
    ensures Split("A /  / B", Separator) == ["A", "", "B"]
  {
    var text := "A /  / B";
    assert !(Separator <= text);
    assert text[1..] == " /  / B" && Separator <= text[1..];
    assert text[1..][3..] == " / B" && Separator <= " / B";
    assert " / B"[3..] == "B" && !(Separator <= "B");
    assert "B"[1..] == "" && "" + ["B"[0]] == "B";
    assert SplitFrom("B", Separator, "") == SplitFrom("", Separator, "B") == ["B"];
    assert SplitFrom(" / B", Separator, "") == [""] + ["B"];
    assert SplitFrom(text[1..], Separator, "A") == ["A"] + ["", "B"];
    assert "" + [text[0]] == "A";
    assert SplitFrom(text, Separator, "") == SplitFrom(text[1..], Separator, "A");
  }

  /** The filter goes piece by piece: a piece in front is kept exactly when it is not blank. */
  lemma NonBlankCons(w: string, rest: seq<string>)
    ensures NonBlank([w] + rest) == (if IsBlank(w) then [] else [w]) + NonBlank(rest)
  {
    var ws := [w] + rest;
    assert ws[0] == w && ws[1..] == rest;
    TrimEmptyIffBlank(w);
  }

  /** An empty piece between two words is dropped, and the words are kept. */
  lemma {:induction false} EmptyPieceFiltered(x: string, y: string)
    requires !IsBlank(x) && !IsBlank(y)
    ensures NonBlank([x, "", y]) == [x, y]
  {
    NonBlankCons(y, []);
    assert [y] + [] == [y] && NonBlank([y]) == [y];
    NonBlankCons("", [y]);
    assert ["", y] == [""] + [y];
    NonBlankCons(x, ["", y]);
    assert [x, "", y] == [x] + ["", y];
  }

  /** The empty piece is dropped: the words are A and B, and the band has eight items. */
  lemma {:induction false} BlankPieceDropped()
    ensures Words("A /  / B") == ["A", "B"]
    ensures |Items("A /  / B")| == 8
  {
    SplitWithEmptyPiece();
    assert !IsJsSpace("A"[0]) && !IsJsSpace("B"[0]);
    EmptyPieceFiltered("A", "B");
  }
}
