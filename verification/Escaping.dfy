/**
 Text matching in the two dialects: escapeLikePattern with PostgreSQL's ILIKE, and
 escapeRegex with a MongoDB regular expression.  An escaped value denotes itself, whatever
 wildcards it is written with.  Case folding is a parameter, character by character.
 */
module Escaping {
  import opened Wrappers

  type Fold = char -> char

  function FoldText(fold: Fold, s: string): (t: string)
    ensures |t| == |s| && forall i :: 0 <= i < |s| ==> t[i] == fold(s[i])
  {
    seq(|s|, i requires 0 <= i < |s| => fold(s[i]))
  }

  // ---------------------------------------------------------------- what a filter asks for

  predicate HasAt(s: string, v: string, at: nat) {
    at + |v| <= |s| && s[at..at + |v|] == v
  }

  ghost predicate Within(s: string, v: string) {
    exists at: nat :: HasAt(s, v, at)
  }

  ghost predicate StartsWith(fold: Fold, s: string, v: string) {
    HasAt(FoldText(fold, s), FoldText(fold, v), 0)
  }

  ghost predicate Contains(fold: Fold, s: string, v: string) {
    Within(FoldText(fold, s), FoldText(fold, v))
  }

  // ---------------------------------------------------------------- LIKE

  predicate LikeSpecial(c: char) { c == '\\' || c == '%' || c == '_' }

  // value.replace(/[\\%_]/g, c => `\${c}`)
  function EscapeLike(v: string): string {
    if v == "" then "" else (if LikeSpecial(v[0]) then ['\\', v[0]] else [v[0]]) + EscapeLike(v[1..])
  }

  // LIKE ... ESCAPE '\'.  None: the match runs into an escape character at the
  // end of the pattern, which is an error.
  function Like(s: string, p: string): Option<bool>
    decreases |p|, |s|
  {
    if p == "" then Some(s == "")
    else if p[0] == '\\' then
      if |p| == 1 then None
      else if s != "" && s[0] == p[1] then Like(s[1..], p[2..]) else Some(false)
    else if p[0] == '%' then
      var here := Like(s, p[1..]);
      if here != Some(false) || s == "" then here else Like(s[1..], p)
    else if s != "" && (p[0] == '_' || s[0] == p[0]) then Like(s[1..], p[1..])
    else Some(false)
  }

  // ILIKE folds both sides.
  function ILike(fold: Fold, s: string, p: string): Option<bool> {
    Like(FoldText(fold, s), FoldText(fold, p))
  }

  // Folding neither moves nor makes a special character.
  ghost predicate KeepsLikeSpecials(fold: Fold) {
    forall c: char :: (LikeSpecial(c) ==> fold(c) == c) && (LikeSpecial(fold(c)) ==> fold(c) == c)
  }

  lemma FoldConcat(fold: Fold, s: string, t: string)
    ensures FoldText(fold, s + t) == FoldText(fold, s) + FoldText(fold, t)
  {
  }

  lemma {:induction false} FoldEscape(fold: Fold, v: string)
    requires KeepsLikeSpecials(fold)
    ensures FoldText(fold, EscapeLike(v)) == EscapeLike(FoldText(fold, v))
  {
    if v != "" {
      var head := if LikeSpecial(v[0]) then ['\\', v[0]] else [v[0]];
      FoldEscape(fold, v[1..]);
      FoldConcat(fold, head, EscapeLike(v[1..]));
      assert FoldText(fold, v)[1..] == FoldText(fold, v[1..]);
      assert LikeSpecial('\\');
      assert LikeSpecial(v[0]) <==> LikeSpecial(fold(v[0]));
      assert FoldText(fold, head) == if LikeSpecial(v[0]) then ['\\', fold(v[0])] else [fold(v[0])];
    }
  }

  lemma {:induction false} PercentMatchesAll(s: string)
    ensures Like(s, "%") == Some(true)
  {
    if s != "" {
      PercentMatchesAll(s[1..]);
    }
    assert Like(s, "") == Some(s == "");
  }

  // escape(v)% holds of the texts that begin with v.
  lemma {:induction false} EscapedPrefix(s: string, v: string)
    ensures Like(s, EscapeLike(v) + "%") == Some(HasAt(s, v, 0))
    decreases |v|
  {
    var p := EscapeLike(v) + "%";
    if v == "" {
      assert p == "%" && s[0..0] == "";
      PercentMatchesAll(s);
    } else {
      var rest := EscapeLike(v[1..]) + "%";
      assert p == (if LikeSpecial(v[0]) then ['\\', v[0]] else [v[0]]) + rest;
      assert LikeSpecial(v[0]) ==> p[2..] == rest;
      assert !LikeSpecial(v[0]) ==> p[1..] == rest;
      HasAtHead(s, v);
      if s != "" && s[0] == v[0] {
        EscapedPrefix(s[1..], v[1..]);
      }
    }
  }

  lemma HasAtHead(s: string, v: string)
    requires v != ""
    ensures HasAt(s, v, 0) <==> s != "" && s[0] == v[0] && HasAt(s[1..], v[1..], 0)
  {
    if |s| >= |v| {
      assert s[0..|v|] == [s[0]] + s[1..][0..|v| - 1];
      assert v == [v[0]] + v[1..];
      assert s[0..|v|][0] == s[0] && s[0..|v|][1..] == s[1..][0..|v| - 1];
    }
  }

  // %escape(v)% holds of the texts that contain v.
  lemma {:induction false} EscapedSubstring(s: string, v: string)
    ensures Like(s, "%" + EscapeLike(v) + "%") == Some(Within(s, v))
    decreases |s|
  {
    hide HasAt;
    var p := "%" + EscapeLike(v) + "%";
    assert p[1..] == EscapeLike(v) + "%";
    EscapedPrefix(s, v);
    WithinStep(s, v);
    if s != "" {
      EscapedSubstring(s[1..], v);
    }
  }

  lemma WithinStep(s: string, v: string)
    ensures Within(s, v) <==> HasAt(s, v, 0) || (s != "" && Within(s[1..], v))
  {
    if Within(s, v) {
      var at: nat :| HasAt(s, v, at);
      if at > 0 {
        assert s[1..][at - 1..at - 1 + |v|] == s[at..at + |v|];
        assert HasAt(s[1..], v, at - 1);
      }
    }
    if s != "" && Within(s[1..], v) {
      var at: nat :| HasAt(s[1..], v, at);
      assert s[1..][at..at + |v|] == s[at + 1..at + 1 + |v|];
      assert HasAt(s, v, at + 1);
    }
  }

  // The two predicates the query compiler writes.
  lemma StartsWithPattern(fold: Fold, s: string, v: string)
    requires KeepsLikeSpecials(fold)
    ensures ILike(fold, s, EscapeLike(v) + "%") == Some(StartsWith(fold, s, v))
  {
    FoldEscape(fold, v);
    FoldConcat(fold, EscapeLike(v), "%");
    assert LikeSpecial('%');
    assert FoldText(fold, "%") == "%";
    EscapedPrefix(FoldText(fold, s), FoldText(fold, v));
  }

  lemma ContainsPattern(fold: Fold, s: string, v: string)
    requires KeepsLikeSpecials(fold)
    ensures ILike(fold, s, "%" + EscapeLike(v) + "%") == Some(Contains(fold, s, v))
  {
    FoldEscape(fold, v);
    assert LikeSpecial('%');
    assert FoldText(fold, "%") == "%";
    FoldConcat(fold, "%" + EscapeLike(v), "%");
    FoldConcat(fold, "%", EscapeLike(v));
    EscapedSubstring(FoldText(fold, s), FoldText(fold, v));
  }

  // ---------------------------------------------------------------- regular expressions

  predicate RegexSpecial(c: char) { c in ".*+?^${}()|[]\\" }

  predicate Alphanumeric(c: char) { '0' <= c <= '9' || 'a' <= c <= 'z' || 'A' <= c <= 'Z' || c == '_' }

  // value.replace(/[.*+?^${}()|[\]\\]/g, "\\$&")
  function EscapeRegex(v: string): string {
    if v == "" then "" else (if RegexSpecial(v[0]) then ['\\', v[0]] else [v[0]]) + EscapeRegex(v[1..])
  }

  datatype Atom = Literal(c: char) | AnyChar | Start | End

  /** The patterns without operators: None for a repetition, a group, a class, an
      alternative, a letter escape or a dangling backslash. */
  function ParseRegex(p: string): Option<seq<Atom>> {
    if p == "" then Some([])
    else if p[0] == '\\' then
      if |p| == 1 || Alphanumeric(p[1]) then None else Then(Literal(p[1]), ParseRegex(p[2..]))
    else if p[0] == '.' then Then(AnyChar, ParseRegex(p[1..]))
    else if p[0] == '^' then Then(Start, ParseRegex(p[1..]))
    else if p[0] == '$' then Then(End, ParseRegex(p[1..]))
    else if RegexSpecial(p[0]) then None
    else Then(Literal(p[0]), ParseRegex(p[1..]))
  }

  function Then(a: Atom, rest: Option<seq<Atom>>): Option<seq<Atom>> {
    if rest.Some? then Some([a] + rest.value) else None
  }

  function Literals(v: string): seq<Atom> {
    seq(|v|, i requires 0 <= i < |v| => Literal(v[i]))
  }

  // Option "i": literals are compared folded.
  predicate MatchesAt(fold: Fold, atoms: seq<Atom>, s: string, at: nat)
    requires at <= |s|
    decreases |atoms|
  {
    if atoms == [] then true
    else match atoms[0]
      case Start => at == 0 && MatchesAt(fold, atoms[1..], s, at)
      case End => at == |s| && MatchesAt(fold, atoms[1..], s, at)
      case AnyChar => at < |s| && s[at] != '\n' && MatchesAt(fold, atoms[1..], s, at + 1)
      case Literal(c) => at < |s| && fold(s[at]) == fold(c) && MatchesAt(fold, atoms[1..], s, at + 1)
  }

  // $regex searches anywhere in the text.
  predicate Finds(fold: Fold, atoms: seq<Atom>, s: string) {
    exists at: nat :: at <= |s| && MatchesAt(fold, atoms, s, at)
  }

  // An escaped value parses to its own characters.
  lemma {:induction false} EscapedIsLiteral(v: string)
    ensures ParseRegex(EscapeRegex(v)) == Some(Literals(v))
  {
    hide RegexSpecial, Alphanumeric;
    if v == "" {
      assert Literals(v) == [];
    } else {
      EscapedIsLiteral(v[1..]);
      var p, rest := EscapeRegex(v), EscapeRegex(v[1..]);
      NoAlphanumericIsSpecial(v[0]);
      if RegexSpecial(v[0]) {
        assert p == ['\\', v[0]] + rest && p[2..] == rest;
      } else {
        assert p == [v[0]] + rest && p[1..] == rest;
      }
      assert Literals(v) == [Literal(v[0])] + Literals(v[1..]);
    }
  }

  lemma NoAlphanumericIsSpecial(c: char)
    ensures RegexSpecial(c) ==> !Alphanumeric(c)
    ensures c == '\\' || c == '.' || c == '^' || c == '$' ==> RegexSpecial(c)
  {
    if RegexSpecial(c) {
      var i :| 0 <= i < 14 && ".*+?^${}()|[]\\"[i] == c;
    }
    assert ".*+?^${}()|[]\\"[0] == '.' && ".*+?^${}()|[]\\"[4] == '^';
    assert ".*+?^${}()|[]\\"[5] == '$' && ".*+?^${}()|[]\\"[13] == '\\';
  }

  lemma {:induction false} LiteralsMatch(fold: Fold, v: string, s: string, at: nat)
    requires at <= |s|
    ensures MatchesAt(fold, Literals(v), s, at) <==> HasAt(FoldText(fold, s), FoldText(fold, v), at)
    decreases |v|
  {
    var fs, fv := FoldText(fold, s), FoldText(fold, v);
    if v == "" {
      assert fs[at..at] == "" && fv == "";
    } else {
      assert Literals(v)[1..] == Literals(v[1..]);
      assert fv[1..] == FoldText(fold, v[1..]);
      HasAtStep(fs, fv, at);
      if at < |s| {
        LiteralsMatch(fold, v[1..], s, at + 1);
      }
    }
  }

  lemma HasAtStep(s: string, v: string, at: nat)
    requires v != ""
    ensures HasAt(s, v, at) <==> at < |s| && s[at] == v[0] && HasAt(s, v[1..], at + 1)
  {
    if at + |v| <= |s| {
      assert s[at..at + |v|] == [s[at]] + s[at + 1..at + |v|];
      assert v == [v[0]] + v[1..];
      assert s[at..at + |v|][0] == s[at] && s[at..at + |v|][1..] == s[at + 1..at + |v|];
    }
  }

  // The two expressions the Mongo filter compiler writes.
  lemma ContainsRegex(fold: Fold, s: string, v: string)
    ensures ParseRegex(EscapeRegex(v)) == Some(Literals(v))
    ensures Finds(fold, Literals(v), s) <==> Contains(fold, s, v)
  {
    EscapedIsLiteral(v);
    var fs, fv := FoldText(fold, s), FoldText(fold, v);
    if Finds(fold, Literals(v), s) {
      var at: nat :| at <= |s| && MatchesAt(fold, Literals(v), s, at);
      LiteralsMatch(fold, v, s, at);
    }
    if Within(fs, fv) {
      var at: nat :| HasAt(fs, fv, at);
      LiteralsMatch(fold, v, s, at);
    }
  }

  lemma StartsWithRegex(fold: Fold, s: string, v: string)
    ensures ParseRegex("^" + EscapeRegex(v)) == Some([Start] + Literals(v))
    ensures Finds(fold, [Start] + Literals(v), s) <==> StartsWith(fold, s, v)
  {
    EscapedIsLiteral(v);
    assert ("^" + EscapeRegex(v))[1..] == EscapeRegex(v);
    var atoms := [Start] + Literals(v);
    assert atoms[1..] == Literals(v);
    LiteralsMatch(fold, v, s, 0);
    assert MatchesAt(fold, atoms, s, 0) <==> MatchesAt(fold, Literals(v), s, 0);
  }

  // Both dialects give a text filter the same meaning.
  lemma DialectsAgree(fold: Fold, s: string, v: string)
    requires KeepsLikeSpecials(fold)
    ensures var parsed := ParseRegex(EscapeRegex(v));
            parsed.Some? && ILike(fold, s, "%" + EscapeLike(v) + "%") == Some(Finds(fold, parsed.value, s))
    ensures var parsed := ParseRegex("^" + EscapeRegex(v));
            parsed.Some? && ILike(fold, s, EscapeLike(v) + "%") == Some(Finds(fold, parsed.value, s))
  {
    ContainsPattern(fold, s, v);
    StartsWithPattern(fold, s, v);
    ContainsRegex(fold, s, v);
    StartsWithRegex(fold, s, v);
  }
}
