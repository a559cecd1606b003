/** Where a record's link and NFO go: the folder and default file-name base that
    `_process_tv_show` and `_process_movie` compose before any collision check. */
module Layout {
  import opened Wrappers
  import opened Text
  import opened Sanitize
  import opened Paths

  function TvShowsRoot(root: string): string {
    Join(root, "TV Shows")
  }

  function MoviesRoot(root: string): string {
    Join(root, "Movies")
  }

  /** The show folder name: the cleaned, stripped title. */
  function ShowName(title: string): string {
    Clean(Strip(title))
  }

  function ShowDir(root: string, title: string): string {
    Join(TvShowsRoot(root), ShowName(title))
  }

  /** `f"Season {season:02d}"`. */
  function SeasonFolder(season: int): string {
    "Season " + Pad2(season)
  }

  function SeasonDir(root: string, title: string, season: int): string {
    Join(ShowDir(root, title), SeasonFolder(season))
  }

  /** The episode part of the name: the cleaned episode title, or "Episode" when it is empty. */
  function EpisodeLabel(episodeName: string): string {
    Clean(if episodeName != "" then Strip(episodeName) else "Episode")
  }

  /** `f"{show} - S{season:02d}E{episode:02d} - {label}"`. */
  function TvDefaultBase(title: string, season: int, episode: int, episodeName: string): string {
    ShowName(title) + " - S" + Pad2(season) + "E" + Pad2(episode) + " - " + EpisodeLabel(episodeName)
  }

  /** The movie name: `"title (year)"` cleaned, or the cleaned title when the year is empty. */
  function MovieName(title: string, year: string): string {
    Clean(if year != "" then Strip(title) + " (" + year + ")" else Strip(title))
  }

  function MovieDir(root: string, flat: bool, title: string, year: string): string {
    if flat then MoviesRoot(root) else Join(MoviesRoot(root), MovieName(title, year))
  }

  // ---------------------------------------------------------------------------
  // Properties of the layout
  // ---------------------------------------------------------------------------

  lemma CleanNoSlash(name: string)
    ensures NoSlash(Clean(name))
  {
    CleanHasNoSlash(name);
  }

  lemma SeasonFolderNoSlash(season: int)
    ensures NoSlash(SeasonFolder(season))
  {
    Pad2Shape(season);
    var f := SeasonFolder(season);
    forall i | 0 <= i < |f| ensures f[i] != '/' {
      if i >= 7 {
        assert f[i] == Pad2(season)[i - 7];
      }
    }
  }

  /** The show folder sits in `TV Shows` and is named by the cleaned title. */
  lemma ShowDirSplits(root: string, title: string)
    ensures Name(ShowDir(root, title)) == ShowName(title)
    ensures Parent(ShowDir(root, title)) == TvShowsRoot(root)
  {
    CleanNoSlash(Strip(title));
    JoinSplits(TvShowsRoot(root), ShowName(title));
  }

  /** The season folder sits in the show folder and is named `Season NN`. */
  lemma SeasonDirSplits(root: string, title: string, season: int)
    ensures Name(SeasonDir(root, title, season)) == SeasonFolder(season)
    ensures Parent(SeasonDir(root, title, season)) == ShowDir(root, title)
  {
    SeasonFolderNoSlash(season);
    JoinSplits(ShowDir(root, title), SeasonFolder(season));
  }

  /** The season folder's name gives the season number back to `int()`. */
  lemma SeasonFolderDecodes(season: int)
    ensures |SeasonFolder(season)| > 7 && SeasonFolder(season)[..7] == "Season "
    ensures ParseInt(SeasonFolder(season)[7..]) == Some(season)
  {
    Pad2Shape(season);
    assert SeasonFolder(season)[7..] == Pad2(season);
    ParseIntOfPad2(season);
  }

  /** Movies go straight into `Movies` in the flat layout; otherwise each movie gets a
      folder named exactly like its files. */
  lemma MovieLayout(root: string, flat: bool, title: string, year: string)
    ensures flat ==> MovieDir(root, flat, title, year) == MoviesRoot(root)
    ensures !flat ==> Name(MovieDir(root, flat, title, year)) == MovieName(title, year)
    ensures !flat ==> Parent(MovieDir(root, flat, title, year)) == MoviesRoot(root)
  {
    if !flat {
      CleanNoSlash(if year != "" then Strip(title) + " (" + year + ")" else Strip(title));
      JoinSplits(MoviesRoot(root), MovieName(title, year));
    }
  }

  /** In `a + [c] + x` with no `c` in `a`, the first `c` is at index `|a|`. */
  lemma FirstAt(a: string, c: char, x: string)
    requires c !in a
    ensures (a + [c] + x)[|a|] == c
    ensures forall j :: 0 <= j < |a| ==> (a + [c] + x)[j] != c
  {
    forall j | 0 <= j < |a| ensures (a + [c] + x)[j] != c {
      assert a[j] in a;
    }
  }

  /** Splitting at the first occurrence of a character that neither prefix holds. */
  lemma SplitAtFirst(a1: string, a2: string, c: char, x1: string, x2: string)
    requires c !in a1 && c !in a2
    requires a1 + [c] + x1 == a2 + [c] + x2
    ensures a1 == a2 && x1 == x2
  {
    var w := a1 + [c] + x1;
    FirstAt(a1, c, x1);
    FirstAt(a2, c, x2);
    assert |a1| == |a2|;
    assert a1 == w[..|a1|];
    assert a2 == w[..|a2|];
    assert x1 == w[|a1| + 1..];
    assert x2 == (a2 + [c] + x2)[|a2| + 1..];
  }

  lemma Pad2Excludes(n: int)
    ensures 'E' !in Pad2(n) && ' ' !in Pad2(n)
  {
    Pad2Shape(n);
  }

  /** The two number fields of `p + a + "E" + b + " - " + l` are recovered when neither holds
      the character that ends it. */
  lemma FieldsDecode(p: string, a1: string, b1: string, a2: string, b2: string, l: string)
    requires 'E' !in a1 && 'E' !in a2 && ' ' !in b1 && ' ' !in b2
    requires p + a1 + "E" + b1 + " - " + l == p + a2 + "E" + b2 + " - " + l
    ensures a1 == a2 && b1 == b2
  {
    var w1 := p + a1 + "E" + b1 + " - " + l;
    var w2 := p + a2 + "E" + b2 + " - " + l;
    var t1 := b1 + [' '] + ("- " + l);
    var t2 := b2 + [' '] + ("- " + l);
    assert w1[|p|..] == a1 + ['E'] + t1;
    assert w2[|p|..] == a2 + ['E'] + t2;
    SplitAtFirst(a1, a2, 'E', t1, t2);
    SplitAtFirst(b1, b2, ' ', "- " + l, "- " + l);
  }

  /** Two different episodes of one show never get the same default name: the name
      determines season and episode. */
  lemma TvDefaultBaseInjective(title: string, s1: int, e1: int, s2: int, e2: int, episodeName: string)
    requires TvDefaultBase(title, s1, e1, episodeName) == TvDefaultBase(title, s2, e2, episodeName)
    ensures s1 == s2 && e1 == e2
  {
    Pad2Excludes(s1);
    Pad2Excludes(s2);
    Pad2Excludes(e1);
    Pad2Excludes(e2);
    FieldsDecode(ShowName(title) + " - S", Pad2(s1), Pad2(e1), Pad2(s2), Pad2(e2), EpisodeLabel(episodeName));
    Pad2Injective(s1, s2);
    Pad2Injective(e1, e2);
  }

  predicate IsLetter(c: char) {
    'a' <= c <= 'z' || 'A' <= c <= 'Z'
  }

  /** A plain word of letters is already a clean name. */
  lemma CleanWord(w: string)
    requires w != [] && forall i :: 0 <= i < |w| ==> IsLetter(w[i])
    ensures Strip(w) == w && Clean(w) == w
  {
    StripOfStripped(w);
    forall c | c in w ensures !IsIllegal(c) {
      var i :| 0 <= i < |w| && w[i] == c;
    }
    assert IsCleanName(w);
    CleanFixesCleanNames(w);
  }

  lemma ExampleText(show: string, episode: string)
    requires show == "Show" && episode == "Episode"
    ensures show + " - S" + Pad2(1) + "E" + Pad2(2) + " - " + episode == "Show - S01E02 - Episode"
  {
  }

  lemma ExampleNames(title: string, episodeName: string)
    requires title == "Show" && episodeName == ""
    ensures ShowName(title) == "Show" && EpisodeLabel(episodeName) == "Episode"
  {
    CleanWord(title);
    var w := "Episode";
    CleanWord(w);
  }

  /** A show titled "Show" with no episode title, season 1, episode 2. */
  lemma ExampleTvBase(title: string, episodeName: string)
    requires title == "Show" && episodeName == ""
    ensures TvDefaultBase(title, 1, 2, episodeName) == "Show - S01E02 - Episode"
  {
    ExampleNames(title, episodeName);
    ExampleText(ShowName(title), EpisodeLabel(episodeName));
  }
}
