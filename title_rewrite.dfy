/**
  `finalQuery`: the search box lets the user write `Title:value`, with a column's display
  title in front of the colon; before the text is sent, each such title is replaced by the
  column's key. The candidates are the matches of `/(\S+):/g` in the text.
*/
module TitleRewrite {
  import opened Wrappers
  import opened Strings

  /** The part of a column the rewrite looks at. */
  datatype Column = Column(key: string, title: string)

  /** `columns.find(column => column.title === title)`. */
  function FindTitle(columns: seq<Column>, title: string): (r: Option<Column>)
    ensures r.Some? ==> r.value in columns && r.value.title == title
    ensures r.None? <==> forall c :: c in columns ==> c.title != title
    ensures r.Some? ==>
      (exists i :: 0 <= i < |columns| && columns[i] == r.value && forall j :: 0 <= j < i ==> columns[j].title != title)
  {
    if columns == [] then None
    else if columns[0].title == title then Some(columns[0])
    else FindTitle(columns[1..], title)
  }

  // ---------------------------------------------------------------- the regex `/(\S+):/g`

  /** The end of the run of non-white-space characters that starts at `i`. */
  function WordEnd(s: string, i: nat): (e: nat)
    requires i <= |s|
    ensures i <= e <= |s|
    ensures forall j :: i <= j < e ==> !IsWhitespace(s[j])
    ensures e == |s| || IsWhitespace(s[e])
    decreases |s| - i
  {
    if i < |s| && !IsWhitespace(s[i]) then WordEnd(s, i + 1) else i
  }

  /** The last colon of `w` before position `k`. */
  function LastColon(w: string, k: nat): (r: Option<nat>)
    requires k <= |w|
    ensures r.Some? ==> r.value < k && w[r.value] == ':'
    ensures r.Some? ==> forall j :: r.value < j < k ==> w[j] != ':'
    ensures r.None? ==> forall j :: 0 <= j < k ==> w[j] != ':'
  {
    if k == 0 then None
    else if w[k - 1] == ':' then Some(k - 1)
    else LastColon(w, k - 1)
  }

  /**
    The match of `(\S+):` inside one word (a maximal run without white space): the greedy
    `\S+` reaches back from the word's last colon, so the match runs from the start of the
    word to its last colon, provided something precedes that colon. The rest of the word
    holds no colon, so a word has at most one match.
  */
  function WordItem(w: string): (item: Option<string>)
    ensures item.Some? ==> 2 <= |item.value| <= |w|
    ensures item.Some? ==> item.value == w[..|item.value|] && item.value[|item.value| - 1] == ':'
  {
    match LastColon(w, |w|)
    case Some(c) => if c >= 1 then Some(w[..c + 1]) else None
    case None => None
  }

  /** The matches of `/(\S+):/g` from position `i` on, in order. */
  function MatchesFrom(s: string, i: nat): seq<string>
    requires i <= |s|
    decreases |s| - i
  {
    if i == |s| then []
    else if IsWhitespace(s[i]) then MatchesFrom(s, i + 1)
    else
      var e := WordEnd(s, i);
      match WordItem(s[i..e])
      case Some(item) => [item] + MatchesFrom(s, e)
      case None => MatchesFrom(s, e)
  }

  /** `s.match(/(\S+):/g)`, with the empty list for `null`. */
  function Matches(s: string): seq<string> {
    MatchesFrom(s, 0)
  }

  /** Something and then a colon, with no white space: the shape of every match. */
  predicate Titled(item: string) {
    && |item| >= 2 && item[|item| - 1] == ':'
    && forall j :: 0 <= j < |item| ==> !IsWhitespace(item[j])
  }

  /** Every match is a run of at least two non-white-space characters ending in a colon. */
  lemma {:induction false} MatchesAreTitled(s: string, i: nat)
    requires i <= |s|
    ensures forall item :: item in MatchesFrom(s, i) ==> Titled(item)
    decreases |s| - i
  {
    if i < |s| {
      if IsWhitespace(s[i]) {
        MatchesAreTitled(s, i + 1);
      } else {
        var e := WordEnd(s, i);
        MatchesAreTitled(s, e);
        match WordItem(s[i..e])
        case Some(item) =>
          assert forall j :: 0 <= j < |item| ==> item[j] == s[i + j];
          assert Titled(item);
        case None =>
      }
    }
  }

  /** `item.replace(":", "")`: the candidate title, the match without its first colon. */
  function Candidate(item: string): string {
    ReplaceFirst(item, ":", "")
  }

  // ---------------------------------------------------------------- as written

  /**
    The loop as written: for each of the first `n` matches whose candidate is a column
    title, the first occurrence of the match text in the current query is replaced by the
    column key and a colon. That occurrence need not be the one the match came from.
  */
  function ReplaceFirstOccurrences(query: string, items: seq<string>, n: nat, columns: seq<Column>): string
    requires n <= |items|
  {
    if n == 0 then query
    else
      var q := ReplaceFirstOccurrences(query, items, n - 1, columns);
      match FindTitle(columns, Candidate(items[n - 1]))
      case Some(column) => ReplaceFirst(q, items[n - 1], column.key + ":")
      case None => q
  }

  function FinalQueryAsWritten(query: string, columns: seq<Column>): string {
    var items := Matches(query);
    ReplaceFirstOccurrences(query, items, |items|, columns)
  }

  /** With a column titled "a", the query "xa: a:" becomes "xk: a:": the second word's
      title is found, but the text replaced is the "a:" inside the first word. Each word
      rewritten on its own gives "xa:" and "k:". */
  lemma AsWrittenRewritesAnotherWord()
    ensures FinalQueryAsWritten("xa: a:", [Column("k", "a")]) == "xk: a:"
  {
    ExampleMatches();
    ExampleCandidates();
    ExampleReplace();
    var columns := [Column("k", "a")];
    var items := ["xa:", "a:"];
    assert Column("k", "a").key + ":" == "k:";
    assert ReplaceFirstOccurrences("xa: a:", items, 1, columns) == "xa: a:";
    assert ReplaceFirstOccurrences("xa: a:", items, 2, columns) == "xk: a:";
  }

  lemma AsWrittenSingleWords()
    ensures FinalQueryAsWritten("xa:", [Column("k", "a")]) == "xa:"
    ensures FinalQueryAsWritten("a:", [Column("k", "a")]) == "k:"
  {
    ExampleMatches();
    ExampleCandidates();
    ExampleReplace();
    var columns := [Column("k", "a")];
    assert Column("k", "a").key + ":" == "k:";
    assert ReplaceFirstOccurrences("xa:", ["xa:"], 1, columns) == "xa:";
    assert ReplaceFirstOccurrences("a:", ["a:"], 1, columns) == "k:";
  }

  lemma ExampleCandidates()
    ensures FindTitle([Column("k", "a")], Candidate("xa:")) == None
    ensures FindTitle([Column("k", "a")], Candidate("a:")) == Some(Column("k", "a"))
  {
    CandidateOfItem("xa");
    CandidateOfItem("a");
    assert "xa" != "a";
  }

  lemma ExampleReplace()
    ensures ReplaceFirst("xa: a:", "a:", "k:") == "xk: a:"
    ensures ReplaceFirst("a:", "a:", "k:") == "k:"
  {
    var s := "xa: a:";
    assert s[0..2][0] == 'x' && s[1..3] == "a:";
    assert !OccursAt(s, "a:", 0) && OccursAt(s, "a:", 1);
    assert Find(s, "a:") == Some(1);
    assert s[..1] == "x" && s[3..] == " a:";
    assert "a:"[0..2] == "a:";
    assert Find("a:", "a:") == Some(0);
    assert "a:"[..0] == "" && "a:"[2..] == "";
  }

  lemma ExampleMatches()
    ensures Matches("xa: a:") == ["xa:", "a:"]
    ensures Matches("xa:") == ["xa:"] && Matches("a:") == ["a:"]
  {
    assert LastColon("xa:", 3) == Some(2);
    assert "xa:"[..3] == "xa:";
    assert WordItem("xa:") == Some("xa:");
    assert LastColon("a:", 2) == Some(1);
    assert "a:"[..2] == "a:";
    assert WordItem("a:") == Some("a:");
    var s := "xa: a:";
    assert WordEnd(s, 4) == 6 && s[4..6] == "a:";
    assert MatchesFrom(s, 4) == ["a:"];
    assert WordEnd(s, 0) == 3 && s[0..3] == "xa:";
    assert WordEnd("xa:", 0) == 3 && "xa:"[0..3] == "xa:";
    assert WordEnd("a:", 0) == 2 && "a:"[0..2] == "a:";
  }

  // ---------------------------------------------------------------- corrected

  /** One word with its title replaced: the match's candidate, when it is a column
      title, gives way to that column's key; the rest of the word is kept. */
  function RewriteWord(w: string, columns: seq<Column>): string {
    match WordItem(w)
    case None => w
    case Some(item) =>
      match FindTitle(columns, Candidate(item))
      case Some(column) => column.key + ":" + w[|item|..]
      case None => w
  }

  /** The text from position `i` on, with white space copied and each word replaced by
      its image under `f`. */
  function MapWords(s: string, i: nat, f: string -> string): string
    requires i <= |s|
    decreases |s| - i
  {
    if i == |s| then ""
    else if IsWhitespace(s[i]) then [s[i]] + MapWords(s, i + 1, f)
    else
      var e := WordEnd(s, i);
      f(s[i..e]) + MapWords(s, e, f)
  }

  /** `finalQuery`, each match replaced where it was found. */
  function FinalQuery(query: string, columns: seq<Column>): string {
    MapWords(query, 0, w => RewriteWord(w, columns))
  }

  /** The scan of a word does not look past the white space that ends it. */
  lemma {:induction false} WordEndBefore(a: string, c: char, b: string, i: nat)
    requires IsWhitespace(c) && i <= |a|
    ensures WordEnd(a + [c] + b, i) == WordEnd(a, i)
    decreases |a| - i
  {
    if i < |a| && !IsWhitespace(a[i]) {
      assert (a + [c] + b)[i] == a[i];
      WordEndBefore(a, c, b, i + 1);
    }
  }

  /** A word of `b` ends at the same place when `b` comes after some prefix `p`. */
  lemma {:induction false} WordEndShift(p: string, b: string, k: nat)
    requires k <= |b|
    ensures WordEnd(p + b, |p| + k) == |p| + WordEnd(b, k)
    decreases |b| - k
  {
    if k < |b| {
      assert (p + b)[|p| + k] == b[k];
      WordEndShift(p, b, k + 1);
    }
  }

  lemma {:induction false} MapWordsShift(p: string, b: string, k: nat, f: string -> string)
    requires k <= |b|
    ensures MapWords(p + b, |p| + k, f) == MapWords(b, k, f)
    decreases |b| - k
  {
    var s := p + b;
    if k < |b| {
      assert s[|p| + k] == b[k];
      if IsWhitespace(b[k]) {
        MapWordsShift(p, b, k + 1, f);
        assert MapWords(s, |p| + k, f) == [b[k]] + MapWords(s, |p| + k + 1, f);
      } else {
        WordEndShift(p, b, k);
        var e := WordEnd(b, k);
        assert s[|p| + k..|p| + e] == b[k..e];
        MapWordsShift(p, b, e, f);
        assert MapWords(s, |p| + k, f) == f(b[k..e]) + MapWords(s, |p| + e, f);
      }
    }
  }

  lemma {:induction false} MapWordsBefore(a: string, c: char, b: string, i: nat, f: string -> string)
    requires IsWhitespace(c) && i <= |a|
    ensures MapWords(a + [c] + b, i, f) == MapWords(a, i, f) + [c] + MapWords(a + [c] + b, |a| + 1, f)
    decreases |a| - i
  {
    var s := a + [c] + b;
    if i == |a| {
      assert s[i] == c;
    } else {
      assert s[i] == a[i];
      if IsWhitespace(a[i]) {
        MapWordsBefore(a, c, b, i + 1, f);
        assert MapWords(s, i, f) == [a[i]] + MapWords(s, i + 1, f);
        assert MapWords(a, i, f) == [a[i]] + MapWords(a, i + 1, f);
      } else {
        WordEndBefore(a, c, b, i);
        var e := WordEnd(a, i);
        assert s[i..e] == a[i..e];
        MapWordsBefore(a, c, b, e, f);
        assert MapWords(s, i, f) == f(a[i..e]) + MapWords(s, e, f);
        assert MapWords(a, i, f) == f(a[i..e]) + MapWords(a, e, f);
      }
    }
  }

  /** A text without white space is a single word. */
  lemma MapOneWord(w: string, f: string -> string)
    requires w != [] && forall j :: 0 <= j < |w| ==> !IsWhitespace(w[j])
    ensures MapWords(w, 0, f) == f(w)
  {
    assert WordEnd(w, 0) == |w|;
    assert w[0..|w|] == w;
  }

  /** Words are rewritten independently: the text on either side of a white-space
      character is rewritten as if it stood alone. */
  lemma RewriteIsWordwise(a: string, c: char, b: string, columns: seq<Column>)
    requires IsWhitespace(c)
    ensures FinalQuery(a + [c] + b, columns) == FinalQuery(a, columns) + [c] + FinalQuery(b, columns)
  {
    var f := w => RewriteWord(w, columns);
    MapWordsBefore(a, c, b, 0, f);
    MapWordsShift(a + [c], b, 0, f);
    assert a + [c] + b == (a + [c]) + b;
  }

  /** A word `name:rest`, with no colon in `name` or `rest`, becomes `key:rest` when
      `name` is the title of a column, and stays as it is otherwise. */
  lemma RewriteTitledWord(name: string, rest: string, columns: seq<Column>)
    requires name != [] && ':' !in name && ':' !in rest
    requires forall j :: 0 <= j < |name| ==> !IsWhitespace(name[j])
    requires forall j :: 0 <= j < |rest| ==> !IsWhitespace(rest[j])
    ensures FinalQuery(name + ":" + rest, columns) ==
      match FindTitle(columns, name)
      case Some(column) => column.key + ":" + rest
      case None => name + ":" + rest
  {
    var w := name + ":" + rest;
    assert forall j :: 0 <= j < |w| ==> !IsWhitespace(w[j]) by {
      forall j | 0 <= j < |w| ensures !IsWhitespace(w[j]) {
        if j < |name| { assert w[j] == name[j]; }
        else if j > |name| { assert w[j] == rest[j - |name| - 1]; }
      }
    }
    MapOneWord(w, w => RewriteWord(w, columns));
    LastColonOfTitledWord(name, rest);
    var item := name + ":";
    assert w[..|name| + 1] == item && w[|item|..] == rest;
    assert WordItem(w) == Some(item);
    CandidateOfItem(name);
  }

  lemma LastColonOfTitledWord(name: string, rest: string)
    requires ':' !in rest
    ensures var w := name + ":" + rest; LastColon(w, |w|) == Some(|name|)
  {
    var w := name + ":" + rest;
    assert w[|name|] == ':';
    forall j | |name| < j < |w| ensures w[j] != ':' {
      var k := j - |name| - 1;
      assert w[j] == rest[k];
    }
    LastColonAt(w, |name|, |w|);
  }

  lemma {:induction false} LastColonAt(w: string, c: nat, k: nat)
    requires c < k <= |w| && w[c] == ':'
    requires forall j :: c < j < k ==> w[j] != ':'
    ensures LastColon(w, k) == Some(c)
    decreases k
  {
    if k - 1 != c {
      LastColonAt(w, c, k - 1);
    }
  }

  lemma CandidateOfItem(name: string)
    requires ':' !in name
    ensures Candidate(name + ":") == name
  {
    var item := name + ":";
    assert OccursAt(item, ":", |name|);
    forall j: nat | j < |name| ensures !OccursAt(item, ":", j) {
      assert item[j..j + 1] == [name[j]];
    }
    assert Find(item, ":") == Some(|name|);
    assert item[..|name|] == name && item[|name| + 1..] == "";
  }

  /** The rewrite as the model performs it: a scan over the query that copies white space
      and rewrites each word. */
  method RewriteTitles(query: string, columns: seq<Column>) returns (resultQuery: string)
    ensures resultQuery == FinalQuery(query, columns)
  {
    resultQuery := "";
    var i := 0;
    while i < |query|
      invariant i <= |query|
      invariant resultQuery + MapWords(query, i, w => RewriteWord(w, columns)) == FinalQuery(query, columns)
      decreases |query| - i
    {
      if IsWhitespace(query[i]) {
        resultQuery := resultQuery + [query[i]];
        i := i + 1;
      } else {
        var e := WordEnd(query, i);
        resultQuery := resultQuery + RewriteWord(query[i..e], columns);
        i := e;
      }
    }
  }
}
