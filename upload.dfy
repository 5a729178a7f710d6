/**
 * The record the upload dialog adds once its simulated progress reaches
 * 100%: the title derived from the file name, the `M:SS` duration, and the
 * time-based id.
 */
module Upload {
  import opened Wrappers
  import opened Text
  import Catalog

  datatype UploadedVideo = UploadedVideo(
    id: string,
    title: string,
    thumbnail: string,
    duration: string,
    views: string,
    timestamp: string,
    channel: string,
    videoUrl: string)

  /** Whole seconds as `minutes:seconds`, the seconds zero-padded to two digits. */
  function FormatDuration(seconds: nat): string {
    Decimal(seconds / 60) + ":" + PadStart(Decimal(seconds % 60), 2, '0')
  }

  /** Reads an `M:SS` text back into seconds; `None` for anything else. */
  function ParseDuration(s: string): Option<nat> {
    if |s| >= 4 && s[|s| - 3] == ':' && AllDigits(s[..|s| - 3]) && AllDigits(s[|s| - 2..])
       && DecimalValue(s[|s| - 2..]) < 60
    then Some(DecimalValue(s[..|s| - 3]) * 60 + DecimalValue(s[|s| - 2..]))
    else None
  }

  lemma {:induction false} DecimalBelowHundred(n: nat)
    requires n < 100
    ensures |Decimal(n)| <= 2
  {
    if n >= 10 {
      assert Decimal(n) == Decimal(n / 10) + [DigitChar(n % 10)];
    }
  }

  /** The seconds field is always two digits whose value is below 60. */
  lemma {:induction false} SecondsField(n: nat)
    requires n < 60
    ensures |PadStart(Decimal(n), 2, '0')| == 2
    ensures AllDigits(PadStart(Decimal(n), 2, '0'))
    ensures DecimalValue(PadStart(Decimal(n), 2, '0')) == n
  {
    var p := PadStart(Decimal(n), 2, '0');
    DecimalBelowHundred(n);
    DecimalRoundTrip(n);
    if |Decimal(n)| == 1 {
      assert p == ['0'] + Decimal(n);
      assert p[..1] == ['0'];
      assert DecimalValue(p[..1]) == DecimalValue(p[..1][..0]) * 10 + DigitValue('0');
      assert Decimal(n)[..0] == [];
    }
  }

  /** A two-character field after a colon can be cut back out of the joined text. */
  lemma SplitAtColon(front: string, back: string)
    requires |back| == 2
    ensures var r := front + ":" + back;
      |r| == |front| + 3 && r[..|r| - 3] == front && r[|r| - 3] == ':' && r[|r| - 2..] == back
  {
    var r := front + ":" + back;
    assert r[..|r| - 3] == front;
    assert r[|r| - 2..] == back;
  }

  /**
   * The formatted duration is the decimal minutes, a colon, and two digits
   * worth the remaining seconds, which are below 60.
   */
  lemma FormatDurationShape(d: nat)
    ensures var r := FormatDuration(d);
      && |r| >= 4 && r[|r| - 3] == ':'
      && r[..|r| - 3] == Decimal(d / 60)
      && AllDigits(r[|r| - 2..]) && DecimalValue(r[|r| - 2..]) == d % 60 < 60
  {
    var sec := d % 60;
    var front := Decimal(d / 60);
    var back := PadStart(Decimal(sec), 2, '0');
    SecondsField(sec);
    SplitAtColon(front, back);
  }

  /** A digit field, a colon and a two-digit field below 60 parse to minutes times 60 plus seconds. */
  lemma ParseJoined(front: string, back: string)
    requires |front| >= 1 && AllDigits(front)
    requires |back| == 2 && AllDigits(back) && DecimalValue(back) < 60
    ensures ParseDuration(front + ":" + back) == Some(DecimalValue(front) * 60 + DecimalValue(back))
  {
    SplitAtColon(front, back);
  }

  /** Formatting loses nothing: the seconds can be read back from the text. */
  lemma DurationRoundTrip(d: nat)
    ensures ParseDuration(FormatDuration(d)) == Some(d)
  {
    var front := Decimal(d / 60);
    var back := PadStart(Decimal(d % 60), 2, '0');
    SecondsField(d % 60);
    DecimalRoundTrip(d / 60);
    ParseJoined(front, back);
    assert DecimalValue(front) * 60 + DecimalValue(back) == d;
  }

  /** 125 seconds show as `2:05`, 59 seconds as `0:59`, 600 seconds as `10:00`. */
  lemma FormatDurationExamples()
    ensures FormatDuration(125) == "2:05"
    ensures FormatDuration(59) == "0:59"
    ensures FormatDuration(600) == "10:00"
  {
    assert Decimal(2) == "2";
    assert Decimal(5) == "5";
    assert Decimal(0) == "0";
    assert Decimal(59) == Decimal(5) + "9";
    assert Decimal(10) == Decimal(1) + "0";
  }

  /**
   * The suffix the pattern `\.[^/.]+$` matches starts at `i`: a dot followed
   * by one or more characters up to the end, none of them a dot or a slash.
   */
  ghost predicate ExtensionAt(s: string, i: int) {
    0 <= i < |s| - 1 && s[i] == '.' && forall k :: i < k < |s| ==> s[k] != '.' && s[k] != '/'
  }

  /** At most one position can start the matched suffix, so the leftmost match is the only one. */
  lemma ExtensionUnique(s: string, i: int, j: int)
    requires ExtensionAt(s, i) && ExtensionAt(s, j)
    ensures i == j
  {
  }

  /** Scans back from `j`, over characters that are neither dot nor slash, for the dot that starts the suffix. */
  function ExtensionStart(s: string, j: nat): (r: Option<nat>)
    requires j <= |s|
    requires forall k :: j <= k < |s| ==> s[k] != '.' && s[k] != '/'
    ensures r.Some? ==> ExtensionAt(s, r.value)
    ensures r.None? ==> forall i :: !ExtensionAt(s, i)
    decreases j
  {
    if j == 0 then None
    else if s[j - 1] == '.' then (if j < |s| then Some(j - 1) else None)
    else if s[j - 1] == '/' then None
    else ExtensionStart(s, j - 1)
  }

  /** `name.replace(/\.[^/.]+$/, "")`: the file name with its final extension removed, if it has one. */
  function StripExtension(name: string): (r: string)
    ensures (exists i :: ExtensionAt(name, i) && r == name[..i])
         || ((forall i :: !ExtensionAt(name, i)) && r == name)
  {
    match ExtensionStart(name, |name|)
    case Some(i) => name[..i]
    case None => name
  }

  lemma StripExtensionExamples()
    ensures StripExtension("clip.mp4") == "clip"
    ensures StripExtension("archive.tar.gz") == "archive.tar"
    ensures StripExtension("noext") == "noext"
    ensures StripExtension("a.b/c") == "a.b/c"
    ensures StripExtension("trailing.") == "trailing."
    ensures StripExtension(".hidden") == ""
  {
    assert ExtensionAt("clip.mp4", 4);
    assert ExtensionAt("archive.tar.gz", 11);
    assert ExtensionAt(".hidden", 0);
    assert ExtensionStart("a.b/c", 5) == ExtensionStart("a.b/c", 4) == None;
  }

  /** `'v_' + Date.now()` for a clock reading of `now` milliseconds. */
  function GeneratedId(now: nat): (id: string)
    ensures |id| >= 3 && id[0] == 'v' && id[1] == '_'
    ensures AllDigits(id[2..]) && DecimalValue(id[2..]) == now
  {
    DecimalRoundTrip(now);
    assert ("v_" + Decimal(now))[2..] == Decimal(now);
    "v_" + Decimal(now)
  }

  /** Different clock readings give different ids. */
  lemma GeneratedIdsDistinct(a: nat, b: nat)
    requires a != b
    ensures GeneratedId(a) != GeneratedId(b)
  {
    DecimalInjective(a, b);
    assert GeneratedId(a)[2..] == Decimal(a);
    assert GeneratedId(b)[2..] == Decimal(b);
  }

  /** No generated id is a catalog id: those never start with `v`. */
  lemma GeneratedIdNotInCatalog(now: nat)
    ensures forall k :: 0 <= k < |Catalog.Videos| ==> Catalog.Videos[k].id != GeneratedId(now)
  {
    Catalog.CatalogIds();
    assert GeneratedId(now)[0] == 'v';
  }

  /** The record added on completion; the thumbnail and the object URL come from the browser. */
  function UploadRecord(now: nat, fileName: string, thumbnail: string, seconds: nat, videoUrl: string)
    : (v: UploadedVideo)
    ensures v.id == GeneratedId(now) && v.title == StripExtension(fileName)
    ensures v.duration == FormatDuration(seconds) && ParseDuration(v.duration) == Some(seconds)
    ensures v.views == "0 views" && v.timestamp == "Just now" && v.channel == "Your Channel"
    ensures v.thumbnail == thumbnail && v.videoUrl == videoUrl
  {
    DurationRoundTrip(seconds);
    UploadedVideo(GeneratedId(now), StripExtension(fileName), thumbnail, FormatDuration(seconds),
      "0 views", "Just now", "Your Channel", videoUrl)
  }
}
