/**
 * The client's rewrite of a poster URL that points into Google Drive into
 * the Drive thumbnail URL for the same file id. The regular expression
 * `/\/d\/(.+?)(\/|$)/` is modelled by a leftmost, shortest-first search.
 */
module DriveThumbnail {
  import opened Wrappers

  const DriveHost := "drive.google.com"
  const ThumbnailPrefix := "https://drive.google.com/thumbnail?id="

  /** The characters `.` does not match: the ECMAScript line terminators. */
  predicate IsLineTerminator(c: char) {
    c == '\n' || c == '\r' || c as int == 0x2028 || c as int == 0x2029
  }

  predicate OccursAt(s: string, t: string, i: int) {
    0 <= i && i + |t| <= |s| && s[i..i + |t|] == t
  }

  /** `s.includes(t)` */
  predicate Contains(s: string, t: string) {
    exists i | 0 <= i <= |s| :: OccursAt(s, t, i)
  }

  /**
   * The capture group can be positions k..k+len of `s`: at least one
   * character, none of them a line terminator, followed by '/' or by the
   * end of the string.
   */
  predicate GroupEnds(s: string, k: nat, len: nat) {
    && 1 <= len && k + len <= |s|
    && (forall j | k <= j < k + len :: !IsLineTerminator(s[j]))
    && (k + len == |s| || s[k + len] == '/')
  }

  /**
   * The lazy `(.+?)` from position k, trying lengths from `len` upwards
   * once the shorter ones have failed: it finds the shortest length the
   * group can end at, or finds nothing when it can end nowhere.
   */
  function GroupFrom(s: string, k: nat, len: nat): (r: Option<nat>)
    requires 1 <= len && k + len - 1 <= |s|
    requires forall j | k <= j < k + len - 1 :: !IsLineTerminator(s[j])
    ensures r.Some? ==>
      && len <= r.value && GroupEnds(s, k, r.value)
      && forall l :: len <= l < r.value ==> !GroupEnds(s, k, l)
    ensures r.None? ==> forall l :: len <= l ==> !GroupEnds(s, k, l)
    decreases |s| - k - len + 1
  {
    if k + len > |s| then None
    else if IsLineTerminator(s[k + len - 1]) then
      assert forall l :: len <= l ==> !GroupEnds(s, k, l) by {
        forall l | len <= l && k + l <= |s| ensures !GroupEnds(s, k, l) {
          assert k <= k + len - 1 < k + l;
        }
      }
      None
    else if k + len == |s| || s[k + len] == '/' then Some(len)
    else GroupFrom(s, k, len + 1)
  }

  /** The regular expression matches with "/d/" at position i. */
  predicate MatchAt(s: string, i: nat) {
    i + 3 <= |s| && s[i..i + 3] == "/d/" && GroupFrom(s, i + 3, 1).Some?
  }

  /** The capture group of the match at position i. */
  function Group(s: string, i: nat): (r: string)
    requires MatchAt(s, i)
    ensures |r| >= 1
  {
    s[i + 3..i + 3 + GroupFrom(s, i + 3, 1).value]
  }

  /**
   * `s.match(re)[1]` for the leftmost match at or after position i: the
   * group of the first position with a match, or nothing when no position
   * has one.
   */
  function FirstGroupFrom(s: string, i: nat): (r: Option<string>)
    ensures r.Some? ==> exists m :: (&& i <= m && MatchAt(s, m) && r.value == Group(s, m)
                                      && forall m' :: i <= m' < m ==> !MatchAt(s, m'))
    ensures r.None? ==> forall m :: i <= m ==> !MatchAt(s, m)
    decreases |s| - i
  {
    if i + 3 > |s| then None
    else if MatchAt(s, i) then Some(Group(s, i))
    else FirstGroupFrom(s, i + 1)
  }

  /** The thumbnail URL for a file id at a size such as "w400". */
  function Thumbnail(id: string, size: string): string {
    ThumbnailPrefix + id + "&sz=" + size
  }

  /**
   * `getDisplayUrl`: nothing for a missing or empty URL; the thumbnail URL
   * when the URL mentions Drive and carries a "/d/<id>" segment; the URL
   * itself otherwise. The captured id is never empty, so the test that it
   * is truthy always passes.
   */
  function DisplayUrl(url: Option<string>, size: string): (r: Option<string>)
    ensures r.None? <==> url.None? || url.value == ""
    ensures url.Some? && url.value != "" && !Contains(url.value, DriveHost) ==> r == url
    ensures url.Some? && Contains(url.value, DriveHost) && FirstGroupFrom(url.value, 0).None? ==> r == url
    ensures url.Some? && Contains(url.value, DriveHost) && FirstGroupFrom(url.value, 0).Some? ==>
      r == Some(Thumbnail(FirstGroupFrom(url.value, 0).value, size))
  {
    if url.None? || url.value == "" then None
    else if Contains(url.value, DriveHost) then
      match FirstGroupFrom(url.value, 0)
      case Some(id) => Some(Thumbnail(id, size))
      case None => url
    else url
  }

  /**
   * The id the rewrite extracts follows a "/d/", is not empty, holds no line
   * terminator, has no '/' after its first character, and is followed by a
   * '/' or by the end of the URL.
   */
  lemma GroupShape(s: string, i: nat)
    requires MatchAt(s, i)
    ensures s[i..i + 3] == "/d/"
    ensures var id := Group(s, i);
      && 1 <= |id| && i + 3 + |id| <= |s| && s[i + 3..i + 3 + |id|] == id
      && (forall j | 0 <= j < |id| :: !IsLineTerminator(id[j]))
      && (forall j | 1 <= j < |id| :: id[j] != '/')
      && (i + 3 + |id| == |s| || s[i + 3 + |id|] == '/')
  {
    var k, id := i + 3, Group(s, i);
    forall j | 1 <= j < |id| ensures id[j] != '/' {
      assert !GroupEnds(s, k, j);
      assert s[k + j] == id[j];
    }
  }

  /** The characters of a thumbnail URL, part by part. */
  lemma ThumbnailChars(id: string, size: string, m: nat)
    requires m < |Thumbnail(id, size)|
    ensures var t, p := Thumbnail(id, size), |ThumbnailPrefix|;
      && (m < p ==> t[m] == ThumbnailPrefix[m])
      && (p <= m < p + |id| ==> t[m] == id[m - p])
      && (p + |id| <= m < p + |id| + 4 ==> t[m] == "&sz="[m - p - |id|])
      && (p + |id| + 4 <= m ==> t[m] == size[m - p - |id| - 4])
  {
  }

  /** Where a thumbnail URL has a '/': in the scheme, after the host, and possibly as the id's first character. */
  lemma ThumbnailSlashes(id: string, size: string, m: nat)
    requires forall j | 1 <= j < |id| :: id[j] != '/'
    requires forall j | 0 <= j < |size| :: size[j] != '/'
    requires m < |Thumbnail(id, size)| && Thumbnail(id, size)[m] == '/'
    ensures m == 6 || m == 7 || m == 24 || m == |ThumbnailPrefix|
  {
    ThumbnailChars(id, size, m);
  }

  /** A string with no two '/' two positions apart has no "/d/" in it, so the pattern never matches. */
  lemma NoSlashPairNoMatch(t: string)
    requires forall m | 0 <= m && m + 2 < |t| :: t[m] != '/' || t[m + 2] != '/'
    ensures forall m :: !MatchAt(t, m)
  {
    forall m: nat ensures !MatchAt(t, m) {
      if m + 3 <= |t| {
        assert t[m] != '/' || t[m + 2] != '/';
        assert t[m..m + 3][0] == t[m] && t[m..m + 3][2] == t[m + 2];
      }
    }
  }

  /** A thumbnail URL carries no "/d/" segment, so the rewrite leaves it alone. */
  lemma ThumbnailHasNoMatch(id: string, size: string)
    requires forall j | 1 <= j < |id| :: id[j] != '/'
    requires forall j | 0 <= j < |size| :: size[j] != '/'
    ensures forall m :: !MatchAt(Thumbnail(id, size), m)
  {
    var t := Thumbnail(id, size);
    assert |ThumbnailPrefix| == 38;
    forall m | 0 <= m && m + 2 < |t| ensures t[m] != '/' || t[m + 2] != '/' {
      if t[m] == '/' && t[m + 2] == '/' {
        ThumbnailSlashes(id, size, m);
        ThumbnailSlashes(id, size, m + 2);
        assert false;
      }
    }
    NoSlashPairNoMatch(t);
  }

  /**
   * Rewriting is idempotent: a display URL rewritten again stays the same,
   * for any size without a '/' in it.
   */
  lemma DisplayUrlIdempotent(url: Option<string>, size: string)
    requires forall j | 0 <= j < |size| :: size[j] != '/'
    ensures DisplayUrl(DisplayUrl(url, size), size) == DisplayUrl(url, size)
  {
    var r := DisplayUrl(url, size);
    if url.Some? && url.value != "" && Contains(url.value, DriveHost) && FirstGroupFrom(url.value, 0).Some? {
      var m :| MatchAt(url.value, m) && FirstGroupFrom(url.value, 0).value == Group(url.value, m);
      GroupShape(url.value, m);
      var id := Group(url.value, m);
      ThumbnailHasNoMatch(id, size);
      assert FirstGroupFrom(r.value, 0).None?;
    }
  }

  /** The search passes over positions without a match. */
  lemma {:induction false} FirstGroupSkips(s: string, i: nat, m: nat)
    requires i <= m && forall p :: i <= p < m ==> !MatchAt(s, p)
    ensures FirstGroupFrom(s, i) == FirstGroupFrom(s, m)
    decreases m - i
  {
    if i < m && i + 3 <= |s| {
      FirstGroupSkips(s, i + 1, m);
    } else if i < m {
      assert FirstGroupFrom(s, i) == None;
      FirstGroupSkips(s, i + 1, m);
    }
  }
}
