/**
 Store keys made of four segments joined by bars. A segment that holds a bar itself can make two keys alike; the
 lemmas say exactly when.
 */
module SegmentKeys {
  import opened Text

  datatype Segments = Segments(first: string, second: string, third: string, fourth: string)

  function Joined(key: Segments): string { Join([key.first, key.second, key.third, key.fourth], '|') }

  function Pieces(key: Segments): seq<string> { Split(Joined(key), '|') }

  /** The segments that are the pieces up to the first cut, between the cuts, and after the last. */
  function Grouped(pieces: seq<string>, i: nat, j: nat, k: nat): Segments
    requires 0 < i < j < k < |pieces|
  {
    Segments(Join(pieces[..i], '|'), Join(pieces[i..j], '|'), Join(pieces[j..k], '|'), Join(pieces[k..], '|'))
  }

  lemma JoinedNested(key: Segments)
    ensures Joined(key) == key.first + ['|'] + (key.second + ['|'] + (key.third + ['|'] + key.fourth))
  {
    var parts := [key.first, key.second, key.third, key.fourth];
    assert parts[1..] == [key.second, key.third, key.fourth];
    assert parts[1..][1..] == [key.third, key.fourth];
    assert parts[1..][1..][1..] == [key.fourth];
    assert Join(parts[1..][1..], '|') == key.third + ['|'] + key.fourth;
    assert Join(parts[1..], '|') == key.second + ['|'] + (key.third + ['|'] + key.fourth);
  }

  lemma PiecesOf(key: Segments)
    ensures Pieces(key) == Split(key.first, '|') + (Split(key.second, '|')
                           + (Split(key.third, '|') + Split(key.fourth, '|')))
  {
    hide Joined, Split;
    var last := key.third + ['|'] + key.fourth;
    JoinedNested(key);
    SplitAppend(key.third, key.fourth, '|');
    SplitAppend(key.second, last, '|');
    SplitAppend(key.first, key.second + ['|'] + last, '|');
  }

  /** Every key is a grouping of its pieces. */
  lemma KeyIsGrouping(key: Segments) returns (i: nat, j: nat, k: nat)
    ensures 0 < i < j < k < |Pieces(key)| && Grouped(Pieces(key), i, j, k) == key
  {
    hide Split, Join, Pieces;
    PiecesOf(key);
    var a, b := Split(key.first, '|'), Split(key.second, '|');
    var c, d := Split(key.third, '|'), Split(key.fourth, '|');
    i, j, k := |a|, |a| + |b|, |a| + |b| + |c|;
    var pieces := Pieces(key);
    assert pieces[..i] == a && pieces[i..j] == b && pieces[j..k] == c && pieces[k..] == d;
    JoinSplit(key.first, '|');
    JoinSplit(key.second, '|');
    JoinSplit(key.third, '|');
    JoinSplit(key.fourth, '|');
  }

  lemma JoinCut(pieces: seq<string>, m: nat)
    requires 0 < m < |pieces|
    ensures Join(pieces, '|') == Join(pieces[..m], '|') + ['|'] + Join(pieces[m..], '|')
  {
    assert pieces == pieces[..m] + pieces[m..];
    hide Join;
    JoinAppend(pieces[..m], pieces[m..], '|');
  }

  lemma JoinCutAt(pieces: seq<string>, i: nat, j: nat)
    requires i < j < |pieces|
    ensures Join(pieces[i..], '|') == Join(pieces[i..j], '|') + ['|'] + Join(pieces[j..], '|')
  {
    hide Join;
    assert pieces[i..][..j - i] == pieces[i..j];
    assert pieces[i..][j - i..] == pieces[j..];
    JoinCut(pieces[i..], j - i);
  }

  /** Every grouping of the pieces joins to the same string. */
  lemma GroupingKeepsJoined(key: Segments, i: nat, j: nat, k: nat)
    requires 0 < i < j < k < |Pieces(key)|
    ensures Joined(Grouped(Pieces(key), i, j, k)) == Joined(key)
  {
    JoinSplit(Joined(key), '|');
    assert Join(Pieces(key), '|') == Joined(key);
    hide Joined, Split, Join, Pieces;
    JoinedNested(Grouped(Pieces(key), i, j, k));
    JoinCut(Pieces(key), i);
    JoinCutAt(Pieces(key), i, j);
    JoinCutAt(Pieces(key), j, k);
  }

  ghost predicate Regroups(key: Segments, other: Segments) {
    exists i: nat, j: nat, k: nat :: 0 < i < j < k < |Pieces(key)| && Grouped(Pieces(key), i, j, k) == other
  }

  /** Two keys are alike if and only if the one groups the pieces of the other. */
  lemma AlikeExactly(key: Segments, other: Segments)
    ensures Joined(key) == Joined(other) <==> Regroups(key, other)
  {
    hide Joined, Split, Grouped;
    if Joined(key) == Joined(other) {
      assert Pieces(key) == Pieces(other);
      var i, j, k := KeyIsGrouping(other);
    }
    if Regroups(key, other) {
      var i: nat, j: nat, k: nat :| 0 < i < j < k < |Pieces(key)| && Grouped(Pieces(key), i, j, k) == other;
      GroupingKeepsJoined(key, i, j, k);
    }
  }

  predicate BarFree(key: Segments) {
    '|' !in key.first && '|' !in key.second && '|' !in key.third && '|' !in key.fourth
  }

  lemma PartsOf(s: string)
    ensures '|' !in s <==> |Split(s, '|')| == 1
  {
    hide Split;
    if '|' in s { SplitSeparatorTwoParts(s, '|'); } else { SplitWithout(s, '|'); }
  }

  lemma BarFreeHasFourPieces(key: Segments)
    ensures |Pieces(key)| >= 4 && (BarFree(key) <==> |Pieces(key)| == 4)
  {
    hide Split, Pieces;
    PiecesOf(key);
    PartsOf(key.first);
    PartsOf(key.second);
    PartsOf(key.third);
    PartsOf(key.fourth);
  }

  /** A key without bars in its segments is like no other. */
  lemma BarFreeIsUnlike(key: Segments, other: Segments)
    requires BarFree(key)
    ensures Joined(key) == Joined(other) <==> key == other
  {
    hide Joined, Split, Grouped, Pieces, BarFree;
    BarFreeHasFourPieces(key);
    AlikeExactly(key, other);
    var i, j, k := KeyIsGrouping(key);
  }

  /** Any further piece can go to the third segment or to the last. */
  lemma TwoGroupings(pieces: seq<string>)
    requires |pieces| > 4
    ensures Grouped(pieces, 1, 2, 3) != Grouped(pieces, 1, 2, 4)
  {
    assert pieces[2..3] == [pieces[2]];
    assert pieces[2..4] == [pieces[2]] + [pieces[3]];
    JoinAppend([pieces[2]], [pieces[3]], '|');
  }
}
