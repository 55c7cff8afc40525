// titleKeywords (pkg/instincts/cluster.go): a title's lower-cased runs of letters and digits, without short ones
// and stopwords. Which characters count and how they are lower-cased stays open.

module TitleKeywords {
  import opened Clustering

  datatype Splitting = Splitting(lower: string -> string, letter: char -> bool, stopwords: set<string>)

  /** The maximal runs of letters in s, with `run` before it; the expression that splits a title takes out what is between. */
  function Runs(letter: char -> bool, run: string, s: string): seq<string>
    decreases s
  {
    if s == "" then if run == "" then [] else [run]
    else if letter(s[0]) then Runs(letter, run + [s[0]], s[1..])
    else (if run == "" then [] else [run]) + Runs(letter, "", s[1..])
  }

  predicate Keeps(p: Splitting, token: string)
  {
    |token| >= 4 && token !in p.stopwords
  }

  function Kept(p: Splitting, tokens: seq<string>): seq<string>
  {
    if tokens == [] then []
    else (if Keeps(p, tokens[0]) then [tokens[0]] else []) + Kept(p, tokens[1..])
  }

  /** Tokens of at least four letters that are no stopwords. */
  function Keywords(p: Splitting, title: string): seq<string>
  {
    Kept(p, Runs(p.letter, "", p.lower(title)))
  }

  function LexiconOf(p: Splitting): Lexicon
  {
    Lexicon(p.lower, t => Keywords(p, t))
  }

  // ---------------------------------------------------------------- what there is to write titles with

  ghost predicate Vocabulary(lx: Lexicon, ws: seq<string>)
  {
    && (forall i | 0 <= i < |ws| :: lx.lower(ws[i]) == ws[i] && |ws[i]| >= 4)
    && (forall i, j | 0 <= i < j < |ws| :: ws[i] != ws[j])
  }

  ghost predicate TitledTo(lx: Lexicon, ws: seq<string>, n: nat)
    requires n <= |ws|
  {
    exists title :: lx.keywords(title) == ws[..n]
  }

  /** However many of the words, in order, are the keywords of a title. */
  ghost predicate Titled(lx: Lexicon, ws: seq<string>)
  {
    forall n: nat | n <= |ws| :: TitledTo(lx, ws, n)
  }

  ghost predicate HasTitles(lx: Lexicon, n: nat)
  {
    exists ws :: |ws| == n && Vocabulary(lx, ws) && Titled(lx, ws)
  }

  /** There are titles with any number of keywords. */
  ghost predicate Rich(lx: Lexicon)
  {
    forall n: nat :: HasTitles(lx, n)
  }

  // ---------------------------------------------------------------- the program's titles

  /** Text of the letter k and blanks. */
  predicate Simple(s: string)
  {
    forall i | 0 <= i < |s| :: s[i] == 'k' || s[i] == ' '
  }

  /** k is a lower-case letter, a blank is none, and no stopword is made of k alone. */
  ghost predicate Usual(p: Splitting)
  {
    && p.letter('k') && !p.letter(' ')
    && (forall s | Simple(s) :: p.lower(s) == s)
    && (forall w | w in p.stopwords :: exists i :: 0 <= i < |w| && w[i] != 'k')
  }

  function Word(i: nat): string
  {
    seq(i + 4, _ => 'k')
  }

  function List(n: nat): seq<string>
  {
    seq(n, i requires 0 <= i < n => Word(i))
  }

  /** The words from i to n, each with a blank behind it. */
  function Title(i: nat, n: nat): string
    requires i <= n
    decreases n - i
  {
    if i == n then "" else Word(i) + " " + Title(i + 1, n)
  }

  lemma {:induction false} TitleIsSimple(i: nat, n: nat)
    requires i <= n
    ensures Simple(Title(i, n))
    decreases n - i
  {
    if i < n { TitleIsSimple(i + 1, n); }
  }

  lemma {:induction false} RunOf(p: Splitting, run: string, w: string, rest: string)
    requires Usual(p) && (forall i | 0 <= i < |w| :: w[i] == 'k') && run + w != ""
    ensures Runs(p.letter, run, w + " " + rest) == [run + w] + Runs(p.letter, "", rest)
    decreases w
  {
    var s := w + " " + rest;
    if w == "" {
      assert s[0] == ' ' && s[1..] == rest && run + w == run;
    } else {
      assert s[0] == 'k' && s[1..] == w[1..] + " " + rest;
      assert run + ['k'] + w[1..] == run + w;
      RunOf(p, run + ['k'], w[1..], rest);
    }
  }

  lemma {:induction false} KeywordsOfTitle(p: Splitting, i: nat, n: nat)
    requires Usual(p) && i <= n
    ensures Kept(p, Runs(p.letter, "", Title(i, n))) == List(n)[i..]
    decreases n - i
  {
    if i < n {
      KeywordsOfTitle(p, i + 1, n);
      var w, rest := Word(i), Runs(p.letter, "", Title(i + 1, n));
      RunOf(p, "", w, Title(i + 1, n));
      assert "" + w == w && ([w] + rest)[1..] == rest;
      assert Keeps(p, w);
      assert List(n)[i..] == [w] + List(n)[i + 1..];
    }
  }

  lemma ListIsVocabulary(p: Splitting, n: nat)
    requires Usual(p)
    ensures Vocabulary(LexiconOf(p), List(n))
  {
    forall i | 0 <= i < n ensures p.lower(Word(i)) == Word(i) && |Word(i)| == i + 4 { assert Simple(Word(i)); }
    forall i, j | 0 <= i < j < n ensures List(n)[i] != List(n)[j] { assert |List(n)[i]| != |List(n)[j]|; }
  }

  /** The program can be given titles with any number of keywords. */
  lemma ProgramIsRich(p: Splitting)
    requires Usual(p)
    ensures Rich(LexiconOf(p))
  {
    var lx := LexiconOf(p);
    forall n: nat ensures HasTitles(lx, n) {
      var ws := List(n);
      ListIsVocabulary(p, n);
      forall k: nat | k <= n ensures TitledTo(lx, ws, k) {
        TitleIsSimple(0, k);
        KeywordsOfTitle(p, 0, k);
        assert List(k)[0..] == List(k) == ws[..k];
        assert lx.keywords(Title(0, k)) == ws[..k];
      }
      assert Titled(lx, ws);
    }
  }
}
