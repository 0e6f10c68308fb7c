/** How an invite list is read when a meeting is activated: the stored
    comma-separated string is cut with Java's `String.split(",")` and every
    piece is cleaned with `String.trim()`. Both library calls are modelled
    with their documented edge cases. */
module Participants {
  import opened Collections

  /** `String.trim()` removes every leading and trailing character whose
      code is at most U+0020 (space and all control characters). */
  predicate IsTrimSpace(c: char) {
    c <= ' '
  }

  predicate IsTrimmed(s: string) {
    s == [] || (!IsTrimSpace(s[0]) && !IsTrimSpace(s[|s| - 1]))
  }

  function TrimStart(s: string): (r: string)
    ensures |r| <= |s| && r == s[|s| - |r|..]
    ensures forall k :: 0 <= k < |s| - |r| ==> IsTrimSpace(s[k])
    ensures r == [] || !IsTrimSpace(r[0])
  {
    if s != [] && IsTrimSpace(s[0]) then TrimStart(s[1..]) else s
  }

  function TrimEnd(s: string): (r: string)
    ensures |r| <= |s| && r == s[..|r|]
    ensures forall k :: |r| <= k < |s| ==> IsTrimSpace(s[k])
    ensures r == [] || !IsTrimSpace(r[|r| - 1])
  {
    if s != [] && IsTrimSpace(s[|s| - 1]) then TrimEnd(s[..|s| - 1]) else s
  }

  /** `String.trim()`: the result has no removable character at either end,
      and it is a piece of the input, so it has no character the input lacks. */
  function Trim(s: string): (r: string)
    ensures IsTrimmed(r)
    ensures forall c :: c in r ==> c in s
  {
    var t := TrimStart(s);
    var r := TrimEnd(t);
    assert forall c :: c in r ==> c in t;
    r
  }

  lemma TrimOfTrimmed(s: string)
    requires IsTrimmed(s)
    ensures Trim(s) == s
  {
  }

  /** Joins pieces with commas between them (the inverse of SplitAll). */
  function JoinPieces(pieces: seq<string>): (s: string)
    requires |pieces| >= 1
  {
    if |pieces| == 1 then pieces[0] else pieces[0] + [','] + JoinPieces(pieces[1..])
  }

  /** Cuts a string at every comma, keeping every piece, empty ones included. */
  function SplitAll(s: string): (pieces: seq<string>)
    ensures |pieces| >= 1
    ensures forall p :: p in pieces ==> ',' !in p
  {
    if s == [] then [[]]
    else
      var rest := SplitAll(s[1..]);
      if s[0] == ',' then [[]] + rest
      else
        assert forall p :: p in rest[1..] ==> p in rest;
        [[s[0]] + rest[0]] + rest[1..]
  }

  /** Joining the pieces with commas gives back the string that was cut. */
  lemma {:induction false} JoinSplitRoundTrip(s: string)
    ensures JoinPieces(SplitAll(s)) == s
    decreases |s|
  {
    if s != [] {
      JoinSplitRoundTrip(s[1..]);
      var rest := SplitAll(s[1..]);
      assert s == [s[0]] + s[1..];
      if s[0] == ',' {
        assert JoinPieces([[]] + rest) == [','] + JoinPieces(rest);
      } else {
        var pieces := [[s[0]] + rest[0]] + rest[1..];
        if |rest| > 1 {
          assert pieces[1..] == rest[1..];
          assert JoinPieces(rest) == rest[0] + [','] + JoinPieces(rest[1..]);
        }
        assert JoinPieces(pieces) == [s[0]] + JoinPieces(rest);
      }
    }
  }

  lemma {:induction false} SplitAllCommaFreePrefix(a: string, t: string)
    requires ',' !in a
    ensures SplitAll(a + t) == [a + SplitAll(t)[0]] + SplitAll(t)[1..]
    decreases |a|
  {
    var tailPieces := SplitAll(t);
    if a == [] {
      assert a + t == t;
      assert tailPieces == [tailPieces[0]] + tailPieces[1..];
      assert a + tailPieces[0] == tailPieces[0];
    } else {
      var s := a + t;
      assert s[0] == a[0] && a[0] != ',' by {
        assert a[0] in a;
      }
      assert s[1..] == a[1..] + t;
      SplitAllCommaFreePrefix(a[1..], t);
      var rest := SplitAll(a[1..] + t);
      assert SplitAll(s) == [[a[0]] + rest[0]] + rest[1..];
      assert rest[0] == a[1..] + tailPieces[0] && rest[1..] == tailPieces[1..];
      assert [a[0]] + (a[1..] + tailPieces[0]) == a + tailPieces[0] by {
        assert a == [a[0]] + a[1..];
      }
    }
  }

  /** Splitting undoes joining when no piece holds a comma. */
  lemma {:induction false} SplitJoinRoundTrip(pieces: seq<string>)
    requires |pieces| >= 1
    requires forall p :: p in pieces ==> ',' !in p
    ensures SplitAll(JoinPieces(pieces)) == pieces
    decreases |pieces|
  {
    if |pieces| == 1 {
      SplitAllCommaFreePrefix(pieces[0], []);
      assert pieces[0] + [] == pieces[0];
    } else {
      var tail := JoinPieces(pieces[1..]);
      SplitJoinRoundTrip(pieces[1..]);
      SplitAllCommaFreePrefix(pieces[0], [','] + tail);
      assert ([','] + tail)[1..] == tail;
      var afterComma := SplitAll([','] + tail);
      assert afterComma == [[]] + pieces[1..];
      assert pieces[0] + [','] + tail == pieces[0] + ([','] + tail);
      assert afterComma[0] == [] && afterComma[1..] == pieces[1..];
      assert pieces[0] + afterComma[0] == pieces[0];
      assert pieces == [pieces[0]] + pieces[1..];
    }
  }

  /** Removes the empty strings at the end of a list of pieces. */
  function DropTrailingEmpty(pieces: seq<string>): (r: seq<string>)
    ensures |r| <= |pieces| && r == pieces[..|r|]
    ensures r == [] || r[|r| - 1] != []
    ensures forall k :: |r| <= k < |pieces| ==> pieces[k] == []
  {
    if pieces != [] && pieces[|pieces| - 1] == [] then DropTrailingEmpty(pieces[..|pieces| - 1])
    else pieces
  }

  /** `s.split(",")`: when the input holds no comma the result is the input
      alone (so the empty string gives one empty piece); otherwise the input
      is cut at every comma and the empty pieces at the end are dropped. */
  function JavaSplit(s: string): (pieces: seq<string>)
    ensures forall p :: p in pieces ==> ',' !in p
    ensures ',' !in s ==> pieces == [s]
    ensures pieces == [] || pieces[|pieces| - 1] != [] || s == []
  {
    if ',' !in s then [s]
    else
      var all := SplitAll(s);
      var r := DropTrailingEmpty(all);
      assert forall p :: p in r ==> p in all;
      r
  }

  /** The invited set of an activated meeting: every piece of the stored
      list, trimmed, duplicates merged. No member has a comma or removable
      space at either end. */
  function ParseParticipants(list: string): (invited: set<string>)
    ensures forall e :: e in invited ==> IsTrimmed(e) && ',' !in e
  {
    set p | p in JavaSplit(list) :: Trim(p)
  }

  /** A list of two or more comma-free pieces joined by commas holds a comma. */
  lemma {:induction false} JoinedHasComma(pieces: seq<string>)
    requires |pieces| >= 2
    ensures ',' in JoinPieces(pieces)
  {
  }

  /** Java's split of a list joined from two or more comma-free pieces gives
      those pieces back with the empty pieces at the end dropped. Together
      with JoinSplitRoundTrip this covers every input that holds a comma:
      a list ending in a comma loses its last, empty piece. */
  lemma JavaSplitOfJoined(pieces: seq<string>)
    requires |pieces| >= 2
    requires forall p :: p in pieces ==> ',' !in p
    ensures JavaSplit(JoinPieces(pieces)) == DropTrailingEmpty(pieces)
  {
    JoinedHasComma(pieces);
    SplitJoinRoundTrip(pieces);
  }

  /** Reading back a list written as pieces joined by commas. A single piece
      comes back trimmed even when it is empty; with two or more pieces the
      empty pieces at the end are dropped first and every other piece comes
      back trimmed; when the last piece is not empty, every piece does. */
  lemma ParseJoinedList(pieces: seq<string>)
    requires |pieces| >= 1
    requires forall p :: p in pieces ==> ',' !in p
    ensures |pieces| == 1 ==> ParseParticipants(JoinPieces(pieces)) == {Trim(pieces[0])}
    ensures |pieces| >= 2 ==>
      ParseParticipants(JoinPieces(pieces)) == set p | p in DropTrailingEmpty(pieces) :: Trim(p)
    ensures pieces[|pieces| - 1] != [] ==>
      ParseParticipants(JoinPieces(pieces)) == set p | p in pieces :: Trim(p)
  {
    var s := JoinPieces(pieces);
    if |pieces| == 1 {
      assert JavaSplit(s) == pieces;
    } else {
      JavaSplitOfJoined(pieces);
      var kept := DropTrailingEmpty(pieces);
      if pieces[|pieces| - 1] != [] {
        assert |kept| == |pieces|;
        assert kept == pieces;
      }
    }
  }

  /** A space in front of a trimmed string is trimmed away. */
  lemma TrimLeadingSpace(s: string)
    requires |s| >= 2 && s[0] == ' ' && IsTrimmed(s[1..])
    ensures Trim(s) == s[1..]
  {
    assert TrimStart(s) == TrimStart(s[1..]);
    TrimOfTrimmed(s[1..]);
  }

  /** The trimmed pieces of a two-piece list. */
  lemma TrimmedPair(first: string, second: string)
    ensures (set p | p in [first, second] :: Trim(p)) == {Trim(first), Trim(second)}
  {
    assert forall p :: p in [first, second] <==> p == first || p == second;
  }

  /** A space after a comma is trimmed away. */
  lemma ParseSpacedList()
    ensures ParseParticipants("a, b") == {"a", "b"}
  {
    var pieces := ["a", " b"];
    ParseJoinedList(pieces);
    assert JoinPieces(pieces) == "a, b";
    TrimmedPair("a", " b");
    TrimOfTrimmed("a");
    TrimLeadingSpace(" b");
  }

  /** A trailing comma adds no empty address. */
  lemma ParseTrailingComma()
    ensures ParseParticipants("a,b,") == {"a", "b"}
  {
    var pieces := ["a", "b", ""];
    ParseJoinedList(pieces);
    assert JoinPieces(pieces) == "a,b,";
    assert DropTrailingEmpty(pieces) == ["a", "b"];
    TrimmedPair("a", "b");
    TrimOfTrimmed("a");
    TrimOfTrimmed("b");
  }

  /** An empty list is one empty address, not none. */
  lemma ParseEmptyList()
    ensures ParseParticipants("") == {""}
  {
    ParseJoinedList([""]);
  }

  /** The invite list round trip: addresses that are non-empty, trimmed and
      comma-free, written with commas between them, come back as exactly the
      set of those addresses. */
  lemma InviteListRoundTrip(emails: seq<string>)
    requires |emails| >= 1
    requires forall e :: e in emails ==> e != [] && IsTrimmed(e) && ',' !in e
    ensures ParseParticipants(JoinPieces(emails)) == Elements(emails)
  {
    assert emails[|emails| - 1] in emails;
    ParseJoinedList(emails);
    forall e | e in emails ensures Trim(e) == e {
      TrimOfTrimmed(e);
    }
  }
}
