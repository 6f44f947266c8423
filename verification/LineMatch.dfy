// Backtracking matches of lines against patterns of one shape.
//
// A pattern is a literal lead, a run of non-blank characters (greedy), a literal tail, any text (greedy), a
// closing quote, and the end of the line.
module LineMatch {
  import opened Prelude

  datatype Pattern = Pattern(lead: string, tail: string)
  datatype Found = Found(id: string, text: string)

  predicate Blank(c: char) {
    c == ' ' || ('\t' <= c <= '\r') || ('\U{1c}' <= c <= '\U{1f}') || c == '\U{85}' || c == '\U{a0}' || c == '\U{1680}'
    || ('\U{2000}' <= c <= '\U{200a}') || c == '\U{2028}' || c == '\U{2029}' || c == '\U{202f}' || c == '\U{205f}' || c == '\U{3000}'
  }

  ghost predicate NonBlank(s: string) { forall c :: c in s ==> !Blank(c) }

  predicate StartsWith(s: string, p: string) { |p| <= |s| && s[..|p|] == p }

  // The end of the line: nothing left, or one final newline.
  predicate AtEnd(s: string, n: nat) { n == |s| || (n == |s| - 1 && s[n] == '\n') }

  // The longest text, starting the search at n, that a closing quote at the end of the line follows.
  function GreedyText(s: string, n: nat): Option<string>
    requires n <= |s|
  {
    if n < |s| && s[n] == '"' && AtEnd(s, n + 1) then Some(s[..n])
    else if n == 0 then None
    else GreedyText(s, n - 1)
  }

  function Run(s: string): (n: nat)
    ensures n <= |s| && (forall i :: 0 <= i < n ==> !Blank(s[i])) && (n < |s| ==> Blank(s[n]))
  {
    if s == "" || Blank(s[0]) then 0 else 1 + Run(s[1..])
  }

  // The longest identifier, starting the search at n, after which the rest of the pattern matches.
  function GreedyId(s: string, tail: string, n: nat): Option<Found>
    requires n <= |s|
  {
    if n == 0 then None
    else if !StartsWith(s[n..], tail) then GreedyId(s, tail, n - 1)
    else
      var rest := s[n + |tail|..];
      match GreedyText(rest, |rest|)
      case Some(text) => Some(Found(s[..n], text))
      case None => GreedyId(s, tail, n - 1)
  }

  // A match at the beginning of the line.
  function Match(p: Pattern, s: string): Option<Found> {
    if StartsWith(s, p.lead)
    then
      var rest := s[|p.lead|..];
      GreedyId(rest, p.tail, Run(rest))
    else None
  }

  // The leftmost match.
  function Search(p: Pattern, s: string): Option<Found> {
    var m := Match(p, s);
    if m.Some? || s == "" then m else Search(p, s[1..])
  }

  // ---------------------------------------------------------------- tails that begin with a word

  // The tail is a word of w characters, then a blank.
  ghost predicate WordFirst(tail: string, w: nat) {
    0 < w < |tail| && NonBlank(tail[..w]) && Blank(tail[w])
  }

  lemma TextOfQuoted(text: string)
    ensures GreedyText(text + "\"", |text| + 1) == Some(text)
  {
    var s := text + "\"";
    assert s[|text|] == '"' && s[..|text|] == text;
    assert GreedyText(s, |text|) == Some(text);
  }

  // After an identifier there is only one place where such a tail can stand.
  lemma TailPosition(s: string, tail: string, w: nat, n: nat)
    requires WordFirst(tail, w) && n <= Run(s) && StartsWith(s[n..], tail)
    ensures n + w == Run(s)
  {
    assert forall i :: n <= i < n + |tail| ==> s[i] == s[n..][i - n] == tail[i - n];
    forall i | n <= i < n + w ensures !Blank(s[i]) {
      assert tail[..w][i - n] == tail[i - n] && tail[i - n] in tail[..w];
    }
    assert Blank(s[n + w]);
  }

  // No identifier can be read where the tail does not stand right before the first blank.
  lemma {:induction false} NoIdBeyond(s: string, tail: string, w: nat, n: nat)
    requires WordFirst(tail, w) && n <= Run(s)
    requires n < Run(s) - w || (w <= Run(s) && !StartsWith(s[Run(s) - w..], tail)) || w > Run(s)
    ensures GreedyId(s, tail, n).None?
  {
    if n > 0 {
      if StartsWith(s[n..], tail) { TailPosition(s, tail, w, n); }
      NoIdBeyond(s, tail, w, n - 1);
    }
  }

  lemma {:induction false} IdFound(s: string, tail: string, w: nat, n: nat, id: string, text: string)
    requires WordFirst(tail, w) && id != "" && s == id + tail + (text + "\"")
    requires Run(s) == |id| + w && |id| <= n <= Run(s)
    ensures GreedyId(s, tail, n) == Some(Found(id, text))
  {
    if n == |id| {
      assert s[n..] == tail + (text + "\"");
      assert s[n + |tail|..] == text + "\"" && s[..n] == id;
      TextOfQuoted(text);
    } else {
      if StartsWith(s[n..], tail) { TailPosition(s, tail, w, n); }
      IdFound(s, tail, w, n - 1, id, text);
    }
  }

  lemma RunThroughWord(id: string, tail: string, w: nat, rest: string)
    requires NonBlank(id) && WordFirst(tail, w)
    ensures Run(id + tail + rest) == |id| + w
  {
    var s := id + tail + rest;
    assert s[|id| + w] == tail[w];
    forall i | 0 <= i < |id| + w ensures !Blank(s[i]) {
      if i < |id| {
        assert s[i] == id[i] && id[i] in id;
      } else {
        assert s[i] == tail[..w][i - |id|] && tail[..w][i - |id|] in tail[..w];
      }
    }
  }

  lemma Lead(lead: string, rest: string)
    ensures StartsWith(lead + rest, lead) && (lead + rest)[|lead|..] == rest
  {
  }

  // What a pattern of this shape reads off the line it prints.
  lemma PrintedIsRead(p: Pattern, w: nat, id: string, text: string)
    requires WordFirst(p.tail, w) && NonBlank(id) && id != ""
    ensures Match(p, p.lead + (id + p.tail + (text + "\""))) == Some(Found(id, text))
  {
    hide StartsWith, Run, GreedyId, WordFirst, NonBlank;
    var rest := id + p.tail + (text + "\"");
    Lead(p.lead, rest);
    RunThroughWord(id, p.tail, w, text + "\"");
    IdFound(rest, p.tail, w, |id| + w, id, text);
  }

  // What it does not read: the same lead and identifier before another tail that begins with a word.
  lemma OtherTailIsNotRead(p: Pattern, w: nat, id: string, tail: string, w': nat, rest: string)
    requires WordFirst(p.tail, w) && WordFirst(tail, w') && NonBlank(id)
    requires w <= w' && !StartsWith(tail[w' - w..] + rest, p.tail)
    ensures Match(p, p.lead + (id + tail + rest)).None?
  {
    hide StartsWith, Run, GreedyId, NonBlank;
    var s := id + tail + rest;
    Lead(p.lead, s);
    RunThroughWord(id, tail, w', rest);
    assert s[|id| + w' - w..] == tail[w' - w..] + rest;
    NoIdBeyond(s, p.tail, w, Run(s));
  }

  // The search skips what cannot begin a match.
  lemma {:induction false} SearchSkips(p: Pattern, before: string, s: string)
    requires forall j :: 0 <= j < |before| ==> !StartsWith((before + s)[j..], p.lead)
    ensures Search(p, before + s) == Search(p, s)
  {
    if before == "" {
      assert before + s == s;
    } else {
      assert (before + s)[0..] == before + s;
      assert (before + s)[1..] == before[1..] + s;
      forall j | 0 <= j < |before[1..]| ensures !StartsWith((before[1..] + s)[j..], p.lead) {
        assert (before[1..] + s)[j..] == (before + s)[j + 1..];
      }
      SearchSkips(p, before[1..], s);
    }
  }

  // No match where the character that begins every match does not occur.
  lemma LeadNeedsItsFirst(lead: string, before: string, s: string)
    requires lead != "" && lead[0] !in before
    ensures forall j :: 0 <= j < |before| ==> !StartsWith((before + s)[j..], lead)
  {
    forall j | 0 <= j < |before| ensures !StartsWith((before + s)[j..], lead) {
      assert (before + s)[j..][0] == before[j];
    }
  }

  // ---------------------------------------------------------------- what is found is part of the line

  lemma {:induction false} TextIsShorter(s: string, n: nat)
    requires n <= |s|
    ensures GreedyText(s, n).Some? ==> |GreedyText(s, n).value| < |s|
  {
    if n > 0 { TextIsShorter(s, n - 1); }
  }

  lemma {:induction false} IdTextIsShorter(s: string, tail: string, n: nat)
    requires n <= |s|
    ensures GreedyId(s, tail, n).Some? ==> |GreedyId(s, tail, n).value.text| + |tail| + 1 < |s|
  {
    if n > 0 {
      IdTextIsShorter(s, tail, n - 1);
      if StartsWith(s[n..], tail) { TextIsShorter(s[n + |tail|..], |s| - n - |tail|); }
    }
  }

  lemma {:induction false} FoundIsShorter(p: Pattern, s: string)
    ensures Search(p, s).Some? ==> |Search(p, s).value.text| + |p.lead| + 1 < |s|
  {
    if StartsWith(s, p.lead) { IdTextIsShorter(s[|p.lead|..], p.tail, Run(s[|p.lead|..])); }
    if s != "" { FoundIsShorter(p, s[1..]); }
  }

  // Nothing is found where the lead never occurs.
  lemma {:induction false} NothingToFind(p: Pattern, s: string)
    requires forall j :: 0 <= j <= |s| ==> !StartsWith(s[j..], p.lead)
    ensures Search(p, s).None?
  {
    assert s[0..] == s;
    if s != "" {
      assert forall j :: 0 <= j <= |s[1..]| ==> s[1..][j..] == s[j + 1..];
      NothingToFind(p, s[1..]);
    }
  }
}
