/** Finding a key in JSON text the way cli/json.hpp does: the first occurrence of the quoted
    key and a colon, wherever it may be. A text is seen as the pieces its quotes cut it into. */
module JsonText {
  import opened Bytes

  const QUOTE: char := '"'

  predicate Quoteless(s: string) { QUOTE !in s }

  /** std::string::find from the start of s. */
  function Find(s: string, pat: string): (p: Option<nat>)
    ensures p.Some? ==> p.value + |pat| <= |s|
  {
    if pat <= s then Some(0)
    else if s == "" then None
    else
      var p := Find(s[1..], pat);
      if p.None? then None else Some(p.value + 1)
  }

  predicate OccursAt(s: string, pat: string, q: nat) { q + |pat| <= |s| && s[q..q + |pat|] == pat }

  lemma OccursLater(s: string, pat: string, q: nat)
    requires s != "" && q > 0
    ensures OccursAt(s, pat, q) <==> OccursAt(s[1..], pat, q - 1)
  {
    if q + |pat| <= |s| {
      assert s[q..q + |pat|] == s[1..][q - 1..q - 1 + |pat|];
    }
  }

  /** It is the first place where pat occurs, or there is none. */
  lemma {:induction false} FindMeans(s: string, pat: string)
    ensures match Find(s, pat)
            case Some(p) => OccursAt(s, pat, p) && forall q: nat :: q < p ==> !OccursAt(s, pat, q)
            case None => forall q: nat :: !OccursAt(s, pat, q)
  {
    assert OccursAt(s, pat, 0) <==> pat <= s by {
      if pat <= s { assert s[0..|pat|] == pat; }
    }
    if !(pat <= s) && s != "" {
      FindMeans(s[1..], pat);
      forall q: nat | q > 0 ensures OccursAt(s, pat, q) <==> OccursAt(s[1..], pat, q - 1) {
        OccursLater(s, pat, q);
      }
    }
  }

  function KeyPattern(key: string): string { [QUOTE] + key + [QUOTE, ':'] }

  /** The text after the first place where the key is found. */
  function AfterKey(s: string, key: string): Option<string> {
    match Find(s, KeyPattern(key))
    case None => None
    case Some(p) => Some(s[p + |KeyPattern(key)|..])
  }

  /** Past spaces and tabs. */
  function SkipBlanks(s: string): (t: string)
    ensures |t| <= |s|
  {
    if s != "" && (s[0] == ' ' || s[0] == '\t') then SkipBlanks(s[1..]) else s
  }

  /** Past spaces, tabs and line ends. */
  function SkipWhite(s: string): (t: string)
    ensures |t| <= |s|
  {
    if s != "" && (s[0] == ' ' || s[0] == '\t' || s[0] == '\n' || s[0] == '\r') then SkipWhite(s[1..]) else s
  }

  /** All spaces and tabs are passed over, and nothing else. */
  lemma {:induction false} BlanksSkipped(u: string, s: string)
    requires (forall c :: c in u ==> c == ' ' || c == '\t') && (s == "" || (s[0] != ' ' && s[0] != '\t'))
    ensures SkipBlanks(u + s) == s
  {
    if u == "" {
      assert u + s == s;
    } else {
      assert u[0] in u && (u + s)[1..] == u[1..] + s;
      assert forall c :: c in u[1..] ==> c in u;
      BlanksSkipped(u[1..], s);
    }
  }

  /** And line ends as well. */
  lemma {:induction false} WhiteSkipped(u: string, s: string)
    requires forall c :: c in u ==> c == ' ' || c == '\t' || c == '\n' || c == '\r'
    requires s == "" || (s[0] != ' ' && s[0] != '\t' && s[0] != '\n' && s[0] != '\r')
    ensures SkipWhite(u + s) == s
  {
    if u == "" {
      assert u + s == s;
    } else {
      assert u[0] in u && (u + s)[1..] == u[1..] + s;
      assert forall c :: c in u[1..] ==> c in u;
      WhiteSkipped(u[1..], s);
    }
  }

  /** The text up to the next quote, and the text after it. */
  function UpToQuote(s: string): (r: Option<(string, string)>)
    ensures r.Some? ==> |r.value.1| < |s|
  {
    match Find(s, [QUOTE])
    case None => None
    case Some(p) => Some((s[..p], s[p + 1..]))
  }

  // ---------------------------------------------------------------- pieces

  /** The pieces, a quote before each. */
  function Rest(pieces: seq<string>): string {
    if pieces == [] then "" else [QUOTE] + pieces[0] + Rest(pieces[1..])
  }

  predicate IsKeyAt(pieces: seq<string>, key: string, j: nat) {
    j + 1 < |pieces| && pieces[j] == key && pieces[j + 1] != "" && pieces[j + 1][0] == ':'
  }

  lemma FindSkips(c: char, s: string, pat: string)
    requires pat != "" && pat[0] != c
    ensures Find([c] + s, pat) == if Find(s, pat).None? then None else Some(Find(s, pat).value + 1)
  {
    assert ([c] + s)[1..] == s;
    assert ([c] + s)[0] == c;
  }

  /** Text without quotes holds no beginning of a key. */
  lemma {:induction false} AfterKeySkips(u: string, s: string, key: string)
    requires Quoteless(u)
    ensures AfterKey(u + s, key) == AfterKey(s, key)
  {
    if u == "" {
      assert u + s == s;
    } else {
      AfterKeySkips(u[1..], s, key);
      var t := u[1..] + s;
      assert u + s == [u[0]] + t;
      FindSkips(u[0], t, KeyPattern(key));
      if Find(t, KeyPattern(key)).Some? {
        var p := Find(t, KeyPattern(key)).value;
        assert ([u[0]] + t)[p + 1 + |KeyPattern(key)|..] == t[p + |KeyPattern(key)|..];
      }
    }
  }

  /** A quoted piece is the key exactly when it reads like it and a colon follows. */
  lemma PatternHere(x: string, s: string, key: string)
    requires Quoteless(x) && Quoteless(key)
    ensures KeyPattern(key) <= [QUOTE] + x + ([QUOTE] + s) <==> x == key && s != "" && s[0] == ':'
  {
    var text := [QUOTE] + x + ([QUOTE] + s);
    var pat := KeyPattern(key);
    if |x| < |key| {
      assert text[|x| + 1] == QUOTE && pat[|x| + 1] == key[|x|] && key[|x|] in key;
    } else if |key| < |x| {
      assert pat[|key| + 1] == QUOTE && text[|key| + 1] == x[|key|] && x[|key|] in x;
    } else if pat <= text {
      assert forall i :: 0 <= i < |x| ==> x[i] == text[i + 1] && key[i] == pat[i + 1];
      assert text[|x| + 2] == pat[|x| + 2];
    }
    if x == key && s != "" && s[0] == ':' {
      assert pat == text[..|pat|];
    }
  }

  lemma LastPieceIsNoKey(x: string, key: string)
    requires Quoteless(x) && Quoteless(key)
    ensures AfterKey([QUOTE] + x, key) == None
  {
    var text := [QUOTE] + x;
    var pat := KeyPattern(key);
    if |x| > |key| {
      assert pat[|key| + 1] == QUOTE && text[|key| + 1] == x[|key|];
      assert x[|key|] in x;
    }
    assert text[1..] == x;
    AfterKeySkips(x, "", key);
    assert x + "" == x;
  }

  lemma NotHere(x: string, s: string, key: string)
    requires Quoteless(x) && !(KeyPattern(key) <= [QUOTE] + x + s)
    ensures AfterKey([QUOTE] + x + s, key) == AfterKey(s, key)
  {
    var text := [QUOTE] + x + s;
    assert text[1..] == x + s;
    AfterKeySkips(x, s, key);
    if Find(x + s, KeyPattern(key)).Some? {
      var p := Find(x + s, KeyPattern(key)).value;
      assert text[p + 1 + |KeyPattern(key)|..] == (x + s)[p + |KeyPattern(key)|..];
    }
  }

  lemma Here(key: string, s: string)
    requires s != "" && s[0] == ':'
    ensures AfterKey([QUOTE] + key + ([QUOTE] + s), key) == Some(s[1..])
  {
    var text := [QUOTE] + key + ([QUOTE] + s);
    assert KeyPattern(key) == text[..|KeyPattern(key)|];
    assert text[|KeyPattern(key)|..] == s[1..];
  }

  lemma RestUnfolds(pieces: seq<string>)
    requires |pieces| >= 2
    ensures Rest(pieces) == [QUOTE] + pieces[0] + ([QUOTE] + (pieces[1] + Rest(pieces[2..])))
    ensures Rest(pieces[1..]) == [QUOTE] + (pieces[1] + Rest(pieces[2..]))
    ensures pieces[1] == "" ==> pieces[1] + Rest(pieces[2..]) == "" || (pieces[1] + Rest(pieces[2..]))[0] == QUOTE
  {
    assert pieces[1..][1..] == pieces[2..];
    assert [QUOTE] + pieces[1] + Rest(pieces[2..]) == [QUOTE] + (pieces[1] + Rest(pieces[2..]));
  }

  lemma HereOrLater(x: string, s: string, key: string)
    requires Quoteless(x) && Quoteless(key)
    ensures AfterKey([QUOTE] + x + ([QUOTE] + s), key)
      == if x == key && s != "" && s[0] == ':' then Some(s[1..]) else AfterKey([QUOTE] + s, key)
  {
    PatternHere(x, s, key);
    if x == key && s != "" && s[0] == ':' {
      Here(key, s);
    } else {
      NotHere(x, [QUOTE] + s, key);
    }
  }

  lemma KeyAtHead(pieces: seq<string>, key: string)
    requires |pieces| >= 2 && Quoteless(pieces[0]) && Quoteless(key)
    ensures AfterKey(Rest(pieces), key)
      == if IsKeyAt(pieces, key, 0) then Some(pieces[1][1..] + Rest(pieces[2..])) else AfterKey(Rest(pieces[1..]), key)
  {
    var s := pieces[1] + Rest(pieces[2..]);
    RestUnfolds(pieces);
    HereOrLater(pieces[0], s, key);
    if pieces[1] != "" {
      assert s[1..] == pieces[1][1..] + Rest(pieces[2..]);
    }
  }

  /** The search lands on the first piece that is the key. */
  lemma {:induction false} FirstKey(pieces: seq<string>, key: string, j: nat)
    requires (forall i :: 0 <= i < |pieces| ==> Quoteless(pieces[i])) && Quoteless(key)
    requires IsKeyAt(pieces, key, j) && forall i :: 0 <= i < j ==> !IsKeyAt(pieces, key, i)
    ensures AfterKey(Rest(pieces), key) == Some(pieces[j + 1][1..] + Rest(pieces[j + 2..]))
  {
    KeyAtHead(pieces, key);
    if j > 0 {
      var tail := pieces[1..];
      forall i | 0 <= i < j - 1 ensures !IsKeyAt(tail, key, i) {
        assert !IsKeyAt(pieces, key, i + 1);
      }
      FirstKey(tail, key, j - 1);
      assert tail[j + 1..] == pieces[j + 2..];
    }
  }

  lemma {:induction false} NoKey(pieces: seq<string>, key: string)
    requires (forall i :: 0 <= i < |pieces| ==> Quoteless(pieces[i])) && Quoteless(key)
    requires forall i :: 0 <= i < |pieces| ==> !IsKeyAt(pieces, key, i)
    ensures AfterKey(Rest(pieces), key) == None
  {
    if |pieces| == 1 {
      LastPieceIsNoKey(pieces[0], key);
      assert Rest(pieces) == [QUOTE] + pieces[0];
    } else if |pieces| >= 2 {
      KeyAtHead(pieces, key);
      var tail := pieces[1..];
      forall i | 0 <= i < |tail| ensures !IsKeyAt(tail, key, i) {
        assert !IsKeyAt(pieces, key, i + 1);
      }
      NoKey(tail, key);
    }
  }

  /** Wherever the search lands, it lands on a piece that is the key. */
  lemma {:induction false} SomeKey(pieces: seq<string>, key: string)
    requires (forall i :: 0 <= i < |pieces| ==> Quoteless(pieces[i])) && Quoteless(key)
    requires AfterKey(Rest(pieces), key).Some?
    ensures exists j: nat ::
      IsKeyAt(pieces, key, j) && AfterKey(Rest(pieces), key) == Some(pieces[j + 1][1..] + Rest(pieces[j + 2..]))
  {
    if |pieces| < 2 || (!IsKeyAt(pieces, key, 0) && |pieces| == 2) {
      NoKey(pieces, key);
    } else {
      KeyAtHead(pieces, key);
      if !IsKeyAt(pieces, key, 0) {
        var tail := pieces[1..];
        SomeKey(tail, key);
        var j: nat :| IsKeyAt(tail, key, j) &&
          AfterKey(Rest(tail), key) == Some(tail[j + 1][1..] + Rest(tail[j + 2..]));
        assert IsKeyAt(pieces, key, j + 1) && tail[j + 2..] == pieces[j + 3..];
      }
    }
  }

  /** A quoted text ends at the first quote after it. */
  lemma {:induction false} UpToQuoteEnds(u: string, s: string)
    requires Quoteless(u)
    ensures UpToQuote(u + ([QUOTE] + s)) == Some((u, s))
  {
    var t := u + ([QUOTE] + s);
    FindEnds(u, s);
    assert t[..|u|] == u && t[|u| + 1..] == s;
  }

  lemma {:induction false} FindEnds(u: string, s: string)
    requires Quoteless(u)
    ensures Find(u + ([QUOTE] + s), [QUOTE]) == Some(|u|)
  {
    if u == "" {
      assert u + ([QUOTE] + s) == [QUOTE] + s;
    } else {
      FindEnds(u[1..], s);
      assert u + ([QUOTE] + s) == [u[0]] + (u[1..] + ([QUOTE] + s));
      FindSkips(u[0], u[1..] + ([QUOTE] + s), [QUOTE]);
    }
  }

  /** What is read up to a quote holds none, and without a quote there is nothing to read. */
  lemma QuotelessUpToQuote(s: string)
    ensures UpToQuote(s).Some? ==> Quoteless(UpToQuote(s).value.0)
    ensures UpToQuote(s).None? <==> Quoteless(s)
  {
    FindMeans(s, [QUOTE]);
    if QUOTE in s {
      var q :| 0 <= q < |s| && s[q] == QUOTE;
      assert OccursAt(s, [QUOTE], q) by { assert s[q..q + 1] == [QUOTE]; }
    }
    if Find(s, [QUOTE]).Some? {
      var p := Find(s, [QUOTE]).value;
      assert s[p] == s[p..p + 1][0] == QUOTE;
      forall q | 0 <= q < p ensures s[q] != QUOTE {
        assert !OccursAt(s, [QUOTE], q);
        assert s[q..q + 1] == [s[q]];
      }
    }
  }
}
