/**
 How a value of an answer is shown, said of the shown cell alone.  Both query compilers are
 held to it.
 */
module ShownRows {
  import opened Json
  import opened Queries

  // The visible characters of the text before the end stand at these positions, in order.
  predicate Visible(text: string, end: nat, at: seq<nat>, shown: string) {
    && |at| == |shown| && end <= |text|
    && (forall i, j :: 0 <= i < j < |at| ==> at[i] < at[j])
    && (forall i :: 0 <= i < |at| ==> at[i] < end && shown[i] == text[at[i]] && !Removed(text[at[i]]))
    && forall k :: 0 <= k < end && !Removed(text[k]) ==> k in at
  }

  // The visible characters of the text up to some place, all of them unless 500 are reached.
  ghost predicate SanitizedTo(text: string, shown: string) {
    exists at: seq<nat>, end: nat ::
      Visible(text, end, at, shown) && |shown| <= 500 && (|shown| < 500 ==> end == |text|)
  }

  // Of the characters below the space, tab, line feed and carriage return stay; the delete
  // character and the marks that change the direction of writing are removed, too.
  lemma RemovedIff(c: char)
    ensures c < ' ' ==> (Removed(c) <==> c != '\t' && c != '\n' && c != '\r')
    ensures ' ' <= c ==>
      (Removed(c) <==> c in {'\U{7F}', '\U{202A}', '\U{202B}', '\U{202C}', '\U{202D}', '\U{202E}',
                             '\U{2066}', '\U{2067}', '\U{2068}', '\U{2069}'})
  {
  }

  lemma {:induction false} SeenLast(text: string, c: char)
    ensures Seen(text + [c]) == Seen(text) + if Removed(c) then "" else [c]
  {
    hide Removed;
    if text == "" {
      assert text + [c] == [c] && [c][1..] == "";
    } else {
      SeenLast(text[1..], c);
      assert (text + [c])[1..] == text[1..] + [c];
    }
  }

  lemma {:induction false} SeenVisible(text: string) returns (at: seq<nat>)
    ensures Visible(text, |text|, at, Seen(text))
  {
    hide Removed, Seen;
    at := [];
    if text == "" {
      assert Seen(text) == "" by { NothingSeen(); }
    } else {
      var n := |text| - 1;
      at := SeenVisible(text[..n]);
      SeenLast(text[..n], text[n]);
      assert text == text[..n] + [text[n]];
      OneMoreVisible(text, n, at, Seen(text[..n]));
      if !Removed(text[n]) {
        at := at + [n];
      }
    }
  }

  lemma NothingSeen()
    ensures Seen("") == ""
  {
  }

  lemma OneMoreVisible(text: string, n: nat, at: seq<nat>, seen: string)
    requires |text| == n + 1 && Visible(text[..n], n, at, seen)
    ensures Removed(text[n]) ==> Visible(text, n + 1, at, seen)
    ensures !Removed(text[n]) ==> Visible(text, n + 1, at + [n], seen + [text[n]])
  {
    hide Removed;
    forall k | 0 <= k < n && !Removed(text[k]) ensures k in at {
      assert text[..n][k] == text[k];
    }
  }

  lemma SanitizeIs(text: string)
    ensures SanitizedTo(text, Sanitize(text))
  {
    var at := SeenVisible(text);
    var seen := Seen(text);
    hide Removed, Seen;
    if |seen| <= 500 {
      assert Visible(text, |text|, at, Sanitize(text));
    } else {
      CutVisible(text, at, seen, 500);
      assert Sanitize(text) == seen[..500];
    }
  }

  lemma CutVisible(text: string, at: seq<nat>, seen: string, n: nat)
    requires Visible(text, |text|, at, seen) && n < |seen|
    ensures Visible(text, at[n], at[..n], seen[..n])
  {
    hide Removed;
    forall k | 0 <= k < at[n] && !Removed(text[k]) ensures k in at[..n] {
      var i :| 0 <= i < |at| && at[i] == k;
      assert at[..n][i] == k;
    }
  }

  // What is shown of a value; engine is what becomes of numbers and dates.
  ghost predicate CellShows(engine: Value -> Json, v: Value, shown: Json) {
    match v
    case Absent => shown == Str("undefined")
    case Null => shown == Json.Null
    case Truth(b) => shown == Bool(b)
    case Text(s) => shown.Str? && SanitizedTo(s, shown.s)
    case Number(_) => shown == engine(v)
    case Moment(_) => shown == engine(v)
  }

  lemma ShowCellShows(engine: Value -> Json, v: Value)
    ensures CellShows(engine, v, ShowCell(engine, v))
  {
    hide Sanitize, SanitizedTo;
    if v.Text? {
      SanitizeIs(v.s);
    }
  }
}
