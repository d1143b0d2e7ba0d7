/** What `helper` makes of cycle text: the spaced form splits into one
    string per cycle; the unspaced form keeps the '(' (a quirk). */
module SplitLaws {
  import opened Outcomes
  import opened Text
  import opened Alphabets
  import opened Cycles

  /** A piece free of ')' ends at the next seam. */
  lemma {:induction false} SplitAfterPiece(x: seq<char>, y: seq<char>)
    requires ')' !in x
    ensures SplitAtSeams(x + ")(" + y) == [x] + SplitAtSeams(y)
  {
    if x == [] {
      assert x + ")(" + y == [')', '('] + y;
      assert ([')', '('] + y)[2..] == y;
    } else {
      assert (x + ")(" + y)[1..] == x[1..] + ")(" + y;
      SplitAfterPiece(x[1..], y);
      assert [x[0]] + x[1..] == x;
    }
  }

  /** A final piece free of ')' followed by the closing ')' has no seam. */
  lemma {:induction false} SplitLastPiece(x: seq<char>)
    requires ')' !in x
    ensures SplitAtSeams(x + ")") == [x + ")"]
  {
    if x != [] {
      assert (x + ")")[1..] == x[1..] + ")";
      SplitLastPiece(x[1..]);
      assert [x[0]] + (x[1..] + ")") == x + ")";
    }
  }

  /** The pieces of `pre + Joined(cs) + ")"`: cycle k on its own, with `pre`
      before the first and ")" after the last. */
  function Pieces(pre: seq<char>, cs: seq<seq<char>>): seq<seq<char>>
  {
    seq(|cs|, k requires 0 <= k < |cs| =>
      (if k == 0 then pre else []) + cs[k] + (if k == |cs| - 1 then ")" else []))
  }

  lemma {:induction false} SplitJoined(pre: seq<char>, cs: seq<seq<char>>)
    requires |cs| >= 1 && ')' !in pre
    requires forall k :: 0 <= k < |cs| ==> ')' !in cs[k]
    ensures SplitAtSeams(pre + Joined(cs) + ")") == Pieces(pre, cs)
    decreases |cs|
  {
    if |cs| == 1 {
      assert ')' !in pre + cs[0];
      SplitLastPiece(pre + cs[0]);
    } else {
      var x := pre + cs[0];
      assert ')' !in x;
      assert pre + Joined(cs) + ")" == x + ")(" + (Joined(cs[1..]) + ")");
      SplitAfterPiece(x, Joined(cs[1..]) + ")");
      SplitJoined([], cs[1..]);
      assert [] + Joined(cs[1..]) + ")" == Joined(cs[1..]) + ")";
      var tail := Pieces([], cs[1..]);
      assert |[x] + tail| == |Pieces(pre, cs)|;
      forall k | 0 <= k < |cs| ensures ([x] + tail)[k] == Pieces(pre, cs)[k] {
        if k > 0 {
          assert ([x] + tail)[k] == tail[k - 1];
          assert [] + cs[1..][k - 1] == cs[k];
        }
      }
    }
  }

  /** The spaced form: cycle text that contains a space and, with its spaces
      squeezed out, reads "(c0)(c1)...(cm)" is split by `helper` into exactly
      the cycles c0, c1, ..., cm. */
  lemma HelperSplitsSpacedText(text: seq<char>, cs: seq<seq<char>>)
    requires ' ' in text && |cs| >= 1
    requires Without(text, ' ') == Compact(cs)
    requires forall k :: 0 <= k < |cs| ==> ')' !in cs[k]
    ensures Helper(text) == Ok(cs)
  {
    SplitJoined("(", cs);
    JavaSplitWhole(Without(text, ' '), Pieces("(", cs));
    TrimPieces(cs);
  }

  /** A split whose last piece is not empty drops nothing. */
  lemma JavaSplitWhole(s: seq<char>, pieces: seq<seq<char>>)
    requires SplitAtSeams(s) == pieces && pieces[|pieces| - 1] != []
    ensures JavaSplit(s) == pieces
  {
  }

  /** Trimming the pieces of "(c0)(c1)...(cm)" leaves the cycles. */
  lemma TrimPieces(cs: seq<seq<char>>)
    requires |cs| >= 1
    ensures Trim(Pieces("(", cs)) == Ok(cs)
  {
    var pieces := Pieces("(", cs);
    assert pieces[0][0] == '(';
    var trimmed := pieces[0 := pieces[0][1..]];
    var last := trimmed[|trimmed| - 1];
    assert last[|last| - 1] == ')';
    assert last[..|last| - 1] == cs[|cs| - 1];
    var r := trimmed[|trimmed| - 1 := last[..|last| - 1]];
    forall k | 0 <= k < |cs| ensures r[k] == cs[k] {
      if k == 0 && |cs| > 1 {
        assert pieces[0] == "(" + cs[0];
        assert pieces[0][1..] == cs[0];
      } else if 0 < k < |cs| - 1 {
        assert pieces[k] == [] + cs[k] + [];
      }
    }
    assert r == cs;
  }

  /** The unspaced quirk: "(c)" without a space is one cycle that still
      starts with '(', so the last symbol of c is sent to '('. */
  lemma UnspacedTextKeepsParen(c: seq<char>)
    requires ' ' !in c && ')' !in c && '(' !in c && c != [] && NoDup(c)
    ensures Helper("(" + c + ")") == Ok(["(" + c])
    ensures PermuteText("(" + c + ")", c[|c| - 1]) == Ok('(')
  {
    var text := "(" + c + ")";
    assert ' ' !in text;
    WithoutAppend("(" + c, ')');
    WithoutAbsent("(" + c, ')');
    var cyc := "(" + c;
    assert IndexOf(cyc, c[|c| - 1]) == |cyc| - 1 by {
      assert cyc[|cyc| - 1] == c[|c| - 1];
      forall j | 0 <= j < |cyc| - 1 ensures cyc[j] != c[|c| - 1] {
        if j > 0 { assert cyc[j] == c[j - 1]; }
      }
    }
  }

  lemma WithoutAppend(s: seq<char>, ch: char)
    ensures Without(s + [ch], ch) == Without(s, ch)
  {
    assert (s + [ch])[..|s|] == s;
  }

  /** "(AB) (AC)": 'A' lies in two cycles and the later one decides. */
  lemma LaterCycleWins()
    ensures PermuteText("(AB) (AC)", 'A') == Ok('C')
    ensures InvertText("(AB) (AC)", 'A') == Ok('C')
  {
    SplitTwoCycles();
    assert IndexOf("AC", 'A') == 0;
  }

  /** "(AB) (AC)" splits into the cycles "AB" and "AC". */
  lemma SplitTwoCycles()
    ensures Helper("(AB) (AC)") == Ok(["AB", "AC"])
  {
    var cs: seq<seq<char>> := ["AB", "AC"];
    assert cs[1..] == ["AC"];
    assert Joined(cs) == "AB" + ")(" + "AC";
    assert Compact(cs) == "(AB)(AC)";
    assert forall k :: 0 <= k < |cs| ==> ')' !in cs[k];
    SqueezeTwoCycles();
    HelperSplitsSpacedText("(AB) (AC)", cs);
  }

  lemma SqueezeTwoCycles()
    ensures Without("(AB) (AC)", ' ') == "(AB)(AC)"
  {
    assert "(AB) (AC)" == "(AB)" + " " + "(AC)";
    WithoutConcat("(AB)" + " ", "(AC)", ' ');
    WithoutConcat("(AB)", " ", ' ');
    WithoutAbsent("(AB)", ' ');
    WithoutAbsent("(AC)", ' ');
    assert Without(" ", ' ') == [];
  }

  lemma {:induction false} JoinedAppend(cs1: seq<seq<char>>, cs2: seq<seq<char>>)
    requires |cs1| >= 1 && |cs2| >= 1
    ensures Joined(cs1 + cs2) == Joined(cs1) + ")(" + Joined(cs2)
    decreases |cs1|
  {
    if |cs1| == 1 {
      assert (cs1 + cs2)[1..] == cs2;
    } else {
      assert (cs1 + cs2)[1..] == cs1[1..] + cs2;
      JoinedAppend(cs1[1..], cs2);
    }
  }

  /** `addCycles` then lookup: appending spaced cycle text to spaced cycle
      text makes the split see the old cycles followed by the new ones. */
  lemma AppendedCyclesAreSeen(text: seq<char>, extra: seq<char>, cs1: seq<seq<char>>, cs2: seq<seq<char>>)
    requires ' ' in text && |cs1| >= 1 && |cs2| >= 1
    requires Without(text, ' ') == Compact(cs1) && Without(extra, ' ') == Compact(cs2)
    requires forall k :: 0 <= k < |cs1| ==> ')' !in cs1[k]
    requires forall k :: 0 <= k < |cs2| ==> ')' !in cs2[k]
    ensures Helper(text + extra) == Ok(cs1 + cs2)
  {
    WithoutConcat(text, extra, ' ');
    CompactAppend(cs1, cs2);
    assert ' ' in text + extra by {
      var k :| 0 <= k < |text| && text[k] == ' ';
      assert (text + extra)[k] == ' ';
    }
    HelperSplitsSpacedText(text + extra, cs1 + cs2);
  }

  lemma CompactAppend(cs1: seq<seq<char>>, cs2: seq<seq<char>>)
    requires |cs1| >= 1 && |cs2| >= 1
    ensures Compact(cs1) + Compact(cs2) == Compact(cs1 + cs2)
  {
    JoinedAppend(cs1, cs2);
  }
}
