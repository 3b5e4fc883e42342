/** What a mirror list's sequence number says about the list. */
module MirrorRuns {
  import opened Common
  import opened Antiblock
  import opened Mirrors

  // ---- Which lists does the joined text tell apart? ----

  /** Where two https bases meet in a joined text. */
  const SEAM: string := "\nhttps://"

  /** The text cut at every seam. */
  function Cut(s: string): (parts: seq<string>)
    ensures parts != []
  {
    if s == "" then [""]
    else
      var rest := Cut(s[1..]);
      if SEAM <= s then [""] + rest else Onto(s[0], rest)
  }

  function Onto(c: char, parts: seq<string>): (more: seq<string>)
    requires parts != []
    ensures more != []
  {
    [[c] + parts[0]] + parts[1..]
  }

  lemma OntoSum(c: char, a: seq<string>, b: seq<string>)
    requires a != []
    ensures Onto(c, a + b) == Onto(c, a) + b
  {
    assert (a + b)[1..] == a[1..] + b;
  }

  lemma JoinOnto(c: char, parts: seq<string>)
    requires parts != []
    ensures Join(Onto(c, parts)) == [c] + Join(parts)
  {
    assert Onto(c, parts)[1..] == parts[1..];
  }

  /** Every base cut at its own seams. */
  function Cuts(bases: seq<string>): seq<string> {
    if bases == [] then [] else Cut(bases[0]) + Cuts(bases[1..])
  }

  lemma {:induction false} JoinOfCut(s: string)
    ensures Join(Cut(s)) == s
  {
    if s != "" {
      var rest := Cut(s[1..]);
      JoinOfCut(s[1..]);
      JoinOnto(s[0], rest);
      if SEAM <= s {
        assert ([""] + rest)[1..] == rest;
        assert s[0] == SEAM[0];
      }
    }
  }

  lemma SeamNeedsItsNewline(s: string, t: string)
    requires s != "" && IsHttps(t)
    ensures SEAM <= s + ("\n" + t) <==> SEAM <= s
  {
    var whole := s + ("\n" + t);
    assert whole[|s|] == '\n';
    assert forall k :: 0 < k < |SEAM| ==> SEAM[k] != '\n';
    if |s| >= |SEAM| {
      assert whole[..|SEAM|] == s[..|SEAM|];
    }
  }

  lemma CutAtSeam(t: string)
    requires IsHttps(t)
    ensures Cut("\n" + t) == [""] + Cut(t)
  {
    var s := "\n" + t;
    assert s[1..] == t;
    assert SEAM == "\n" + HTTPS && s[..|SEAM|] == "\n" + t[..|HTTPS|];
  }

  lemma {:induction false} CutOfJoined(s: string, t: string)
    requires IsHttps(t)
    ensures Cut(s + ("\n" + t)) == Cut(s) + Cut(t)
  {
    var tail := "\n" + t;
    if s == "" {
      assert s + tail == tail;
      CutAtSeam(t);
    } else {
      CutOfJoined(s[1..], t);
      SeamNeedsItsNewline(s, t);
      CutGrows(s, tail, Cut(t));
    }
  }

  lemma CutGrows(s: string, tail: string, more: seq<string>)
    requires s != "" && (SEAM <= s + tail <==> SEAM <= s)
    requires Cut(s[1..] + tail) == Cut(s[1..]) + more
    ensures Cut(s + tail) == Cut(s) + more
  {
    assert (s + tail)[1..] == s[1..] + tail;
    OntoSum(s[0], Cut(s[1..]), more);
  }

  lemma JoinIsHttps(bases: seq<string>)
    requires AllHttps(bases) && bases != []
    ensures IsHttps(Join(bases))
  {
    assert IsHttps(bases[0]) && bases[0] <= Join(bases);
  }

  lemma {:induction false} CutOfJoin(bases: seq<string>)
    requires AllHttps(bases) && bases != []
    ensures Cut(Join(bases)) == Cuts(bases)
  {
    if |bases| == 1 {
      assert Cuts(bases) == Cut(bases[0]) + Cuts([]) == Cut(bases[0]);
    } else {
      CutOfJoin(bases[1..]);
      JoinIsHttps(bases[1..]);
      assert Join(bases) == bases[0] + ("\n" + Join(bases[1..]));
      CutOfJoined(bases[0], Join(bases[1..]));
    }
  }

  /** The joined text tells two lists of https bases apart exactly when their cuts do.
      A base can have a seam: the path of a saved URL is kept decoded, and %0A in it is a
      newline. */
  lemma JoinIdentifies(a: seq<string>, b: seq<string>)
    requires AllHttps(a) && AllHttps(b)
    ensures Join(a) == Join(b) <==> Cuts(a) == Cuts(b)
  {
    CutsNotEmpty(a);
    CutsNotEmpty(b);
    if a != [] && b != [] {
      CutOfJoin(a);
      CutOfJoin(b);
      JoinOfCut(Join(a));
      JoinOfCut(Join(b));
    }
  }

  lemma CutsNotEmpty(bases: seq<string>)
    requires AllHttps(bases)
    ensures Cuts(bases) == [] <==> bases == []
    ensures Join(bases) == "" <==> bases == []
  {
    if bases != [] {
      JoinIsHttps(bases);
    }
  }

  /** No seam anywhere in s. */
  predicate Seamless(s: string) {
    s == "" || (!(SEAM <= s) && Seamless(s[1..]))
  }

  lemma {:induction false} SeamlessIsUncut(s: string)
    requires Seamless(s)
    ensures Cut(s) == [s]
  {
    if s != "" {
      SeamlessIsUncut(s[1..]);
      assert [s[0]] + s[1..] == s;
    }
  }

  /** So lists whose bases have no seam are never confused with each other. */
  lemma {:induction false} SeamlessAreTold(a: seq<string>)
    requires forall i :: 0 <= i < |a| ==> Seamless(a[i])
    ensures Cuts(a) == a
  {
    if a != [] {
      SeamlessIsUncut(a[0]);
      SeamlessAreTold(a[1..]);
      assert a == [a[0]] + a[1..];
    }
  }

  // ---- Versions over runs ----

  datatype Change = Change(config: Config, now: int)

  function After(start: Published, saves: seq<Change>, trim: string -> string): Published {
    if saves == [] then start
    else
      var last := saves[|saves| - 1];
      Saved(After(start, saves[..|saves| - 1], trim), last.config, last.now, trim)
  }

  /** The clock does not go back, and every list saved is a normalised one. */
  predicate Proper(start: Published, saves: seq<Change>) {
    && Normal(start.config)
    && (forall i :: 0 <= i < |saves| ==> Normal(saves[i].config) && 0 < saves[i].now && Version(start) <= saves[i].now)
    && forall i, j :: 0 <= i < j < |saves| ==> saves[i].now <= saves[j].now
  }

  /** Clients are shown other bases under the number they know: the save comes in the very
      second of the number, or the two lists have the same cuts. */
  predicate GoesUnnoticed(p: Published, c: Config, now: int, trim: string -> string) {
    && (now == Version(p) || Cuts(Bases(p.config)) == Cuts(Bases(c)))
    && Bases(Loaded(c, trim)) != Bases(p.config)
  }

  /** One save: the number stays exactly in these two cases. */
  lemma NumberStaysExactly(p: Published, c: Config, now: int, trim: string -> string)
    requires now > 0 && Normal(p.config) && Normal(c)
    ensures Version(Saved(p, c, now, trim)) == Version(p)
       <==> now == Version(p) || Cuts(Bases(p.config)) == Cuts(Bases(c))
    ensures Version(Saved(p, c, now, trim)) in {Version(p), now}
  {
    BasesAreHttps(p.config);
    BasesAreHttps(c);
    JoinIdentifies(Bases(p.config), Bases(c));
  }

  lemma PrefixIsProper(start: Published, saves: seq<Change>, i: nat)
    requires Proper(start, saves) && i <= |saves|
    ensures Proper(start, saves[..i])
  {
  }

  lemma {:induction false} NormalAfter(start: Published, saves: seq<Change>, trim: string -> string)
    requires Proper(start, saves)
    ensures Normal(After(start, saves, trim).config)
  {
  }

  lemma {:induction false} VersionsAreOld(start: Published, saves: seq<Change>, trim: string -> string)
    requires Proper(start, saves)
    ensures Version(start) <= Version(After(start, saves, trim))
    ensures Version(After(start, saves, trim)) <= if saves == [] then Version(start) else saves[|saves| - 1].now
  {
    if saves != [] {
      var (front, last) := (saves[..|saves| - 1], saves[|saves| - 1]);
      PrefixIsProper(start, saves, |saves| - 1);
      VersionsAreOld(start, front, trim);
      NormalAfter(start, front, trim);
      NumberStaysExactly(After(start, front, trim), last.config, last.now, trim);
    }
  }

  /** The posture before save k, and the one it leaves. */
  function Before(start: Published, saves: seq<Change>, k: nat, trim: string -> string): Published
    requires k <= |saves|
  {
    After(start, saves[..k], trim)
  }

  lemma BeforeStep(start: Published, saves: seq<Change>, k: nat, trim: string -> string)
    requires k < |saves|
    ensures Before(start, saves, k + 1, trim) == Saved(Before(start, saves, k, trim), saves[k].config, saves[k].now, trim)
  {
    assert saves[..k + 1][..k] == saves[..k];
  }

  lemma OneMoreSave(start: Published, saves: seq<Change>, k: nat, trim: string -> string)
    requires Proper(start, saves) && k < |saves|
    ensures var (p, q, c) := (Before(start, saves, k, trim), Before(start, saves, k + 1, trim), saves[k]);
            && Version(p) <= Version(q)
            && q.config == Loaded(c.config, trim)
            && (Version(p) == Version(q) <==> c.now == Version(p) || Cuts(Bases(p.config)) == Cuts(Bases(c.config)))
  {
    PrefixIsProper(start, saves, k);
    NormalAfter(start, saves[..k], trim);
    VersionsAreOld(start, saves[..k], trim);
    BeforeStep(start, saves, k, trim);
    NumberStaysExactly(Before(start, saves, k, trim), saves[k].config, saves[k].now, trim);
    assert k > 0 ==> saves[..k][k - 1] == saves[k - 1];
  }

  /** Over any run of saves the versions never go down. */
  lemma {:induction false} VersionsRise(start: Published, saves: seq<Change>, i: nat, j: nat, trim: string -> string)
    requires Proper(start, saves) && i <= j <= |saves|
    ensures Version(Before(start, saves, i, trim)) <= Version(Before(start, saves, j, trim))
    decreases j
  {
    if i < j {
      VersionsRise(start, saves, i, j - 1, trim);
      OneMoreSave(start, saves, j - 1, trim);
    }
  }

  /** The number stands for the list: at any two moments with the same version clients are
      shown the same bases. */
  ghost predicate Functional(start: Published, saves: seq<Change>, trim: string -> string) {
    forall i, j :: 0 <= i <= j <= |saves| && Version(Before(start, saves, i, trim)) == Version(Before(start, saves, j, trim))
                   ==> Bases(Before(start, saves, i, trim).config) == Bases(Before(start, saves, j, trim).config)
  }

  ghost predicate AllNoticed(start: Published, saves: seq<Change>, trim: string -> string) {
    forall k :: 0 <= k < |saves| ==> !GoesUnnoticed(Before(start, saves, k, trim), saves[k].config, saves[k].now, trim)
  }

  lemma {:induction false} SameVersionSameBases(start: Published, saves: seq<Change>, i: nat, j: nat, trim: string -> string)
    requires Proper(start, saves) && i <= j <= |saves| && AllNoticed(start, saves, trim)
    requires Version(Before(start, saves, i, trim)) == Version(Before(start, saves, j, trim))
    ensures Bases(Before(start, saves, i, trim).config) == Bases(Before(start, saves, j, trim).config)
    decreases j
  {
    if i < j {
      VersionsRise(start, saves, i, j - 1, trim);
      OneMoreSave(start, saves, j - 1, trim);
      SameVersionSameBases(start, saves, i, j - 1, trim);
    }
  }

  /** Over any run of saves the number stands for the list exactly when no save goes
      unnoticed, which each save can be asked beforehand. */
  lemma VersionsAreFunctional(start: Published, saves: seq<Change>, trim: string -> string)
    requires Proper(start, saves)
    ensures Functional(start, saves, trim) <==> AllNoticed(start, saves, trim)
  {
    if AllNoticed(start, saves, trim) {
      forall i, j | 0 <= i <= j <= |saves| && Version(Before(start, saves, i, trim)) == Version(Before(start, saves, j, trim))
        ensures Bases(Before(start, saves, i, trim).config) == Bases(Before(start, saves, j, trim).config)
      {
        SameVersionSameBases(start, saves, i, j, trim);
      }
    }
    if Functional(start, saves, trim) {
      forall k | 0 <= k < |saves|
        ensures !GoesUnnoticed(Before(start, saves, k, trim), saves[k].config, saves[k].now, trim)
      {
        OneMoreSave(start, saves, k, trim);
      }
    }
  }

  /** In different seconds, with settings that read back as saved and bases without seams,
      every change is noticed. */
  lemma PlainSavesAreNoticed(p: Published, c: Config, now: int, trim: string -> string)
    requires now > Version(p) && Loaded(c, trim) == c
    requires forall b :: b in Bases(p.config) || b in Bases(c) ==> Seamless(b)
    ensures !GoesUnnoticed(p, c, now, trim)
  {
    SeamlessAreTold(Bases(p.config));
    SeamlessAreTold(Bases(c));
  }

  // ---- When the number does not follow the list ----

  function JustMirrors(mirrors: seq<string>): Config {
    Config("", 0, Auto, "", mirrors, false)
  }

  /** A mirror whose path hides a seam can be replaced by two mirrors, and clients are
      shown the same number. */
  lemma SeamHidesAChange(now: int, later: int, trim: string -> string)
    requires trim("") == "" && now > 1
    ensures var one, two := ["https://x/a\nhttps://y"], ["https://x/a", "https://y"];
            var p := Saved(Published(JustMirrors([]), 0), JustMirrors(one), now, trim);
            var q := Saved(p, JustMirrors(two), later, trim);
            Header(p) == Some((now, one)) && Header(q) == Some((now, two))
  {
    var one, two := ["https://x/a\nhttps://y"], ["https://x/a", "https://y"];
    JustMirrorsBases(one);
    JustMirrorsBases(two);
    JoinTwo("https://x/a", "https://y");
    assert "https://x/a" + "\n" + "https://y" == one[0];
    SaveJustMirrors(Published(JustMirrors([]), 0), one, now, trim);
    SaveJustMirrors(Published(JustMirrors(one), now), two, later, trim);
  }

  lemma JoinTwo(a: string, b: string)
    ensures Join([a, b]) == a + "\n" + b
  {
    assert [a, b][1..] == [b];
  }

  lemma SaveJustMirrors(p: Published, mirrors: seq<string>, now: int, trim: string -> string)
    requires trim("") == "" && Bases(JustMirrors(mirrors)) == mirrors
    ensures Saved(p, JustMirrors(mirrors), now, trim)
         == Published(JustMirrors(mirrors), if Join(Bases(p.config)) != Join(mirrors) then now else p.mirrorsSeq)
  {
  }

  lemma JustMirrorsBases(mirrors: seq<string>)
    requires |mirrors| <= 1 || (|mirrors| == 2 && mirrors[0] != mirrors[1])
    ensures Bases(JustMirrors(mirrors)) == mirrors
  {
    if mirrors != [] {
      assert BasesFrom("", mirrors[..1]) == [mirrors[0]] by { assert mirrors[..1][..0] == []; }
      assert mirrors == if |mirrors| == 1 then mirrors[..1] else mirrors[..1] + [mirrors[1]];
    }
  }

  /** A base URL that ends in a space is compared before the space is lost. */
  lemma TrailingSpaceHidesAChange(u: string, now: int, later: int, trim: string -> string)
    requires IsHttps(u) && trim(u + " ") == u && trim("") == "" && now > 1
    ensures var p := Saved(Published(JustMirrors([]), 0), JustMirrors([u + " "]), now, trim);
            var q := Saved(p, Config("", 0, Auto, u + " ", [], false), later, trim);
            Header(p) == Some((now, [u + " "])) && Header(q) == Some((now, [u]))
  {
    assert IsHttps(u + " ");
    JustMirrorsBases([u + " "]);
    var one := Config("", 0, Auto, u + " ", [], false);
    assert Bases(one) == [u + " "] && Bases(Loaded(one, trim)) == [u];
    var p := Saved(Published(JustMirrors([]), 0), JustMirrors([u + " "]), now, trim);
    assert p.config == JustMirrors([u + " "]);
    assert Join(Bases(p.config)) == u + " ";
    assert Join(Bases(JustMirrors([]))) == "";
  }

  /** Two changes within one second get the same number. */
  lemma SameSecondCollides(a: string, b: string, now: int, trim: string -> string)
    requires IsHttps(a) && IsHttps(b) && a != b && trim("") == "" && now != 0
    ensures var p := Saved(Published(JustMirrors([]), 0), JustMirrors([a]), now, trim);
            var q := Saved(p, JustMirrors([b]), now, trim);
            Header(p) == Some((now, [a])) && Header(q) == Some((now, [b]))
  {
    JustMirrorsBases([a]);
    JustMirrorsBases([b]);
  }
}
