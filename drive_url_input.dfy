// The folder-id input of the content editor (sanity/components/DriveUrlInput.tsx): a pasted
// storage link is reduced to its folder id with the pattern /(?:folders\/|id=)([\w-]+)/,
// anything else is kept as typed; the change handler sets or unsets the field, and a
// confirmation badge shows when the stored value looks like a bare id.

module DriveUrlInput {
  import opened Types

  /** `[\w-]`: an ASCII letter, digit, underscore or hyphen. */
  predicate IsIdChar(c: char)
  {
    ('A' <= c <= 'Z') || ('a' <= c <= 'z') || ('0' <= c <= '9') || c == '_' || c == '-'
  }

  const FoldersMarker := "folders/"
  const IdMarker := "id="

  /** `folders/` starts at `p`. */
  predicate FoldersAt(s: string, p: nat)
  {
    p + |FoldersMarker| <= |s| && s[p..p + |FoldersMarker|] == FoldersMarker
  }

  /** `id=` starts at `p`. */
  predicate IdAt(s: string, p: nat)
  {
    p + |IdMarker| <= |s| && s[p..p + |IdMarker|] == IdMarker
  }

  /** Length of the marker (`folders/` or `id=`) that starts at `p`, or 0 if none does. */
  function MarkerLength(s: string, p: nat): (m: nat)
    ensures m == 0 || m == |FoldersMarker| || m == |IdMarker|
    ensures m > 0 ==> p + m <= |s| && s[p + m - 1] in {'/', '='}
    ensures m == 0 <==> !FoldersAt(s, p) && !IdAt(s, p)
  {
    if FoldersAt(s, p) then
      assert s[p + 7] == s[p..p + |FoldersMarker|][7];
      |FoldersMarker|
    else if IdAt(s, p) then
      assert s[p + 2] == s[p..p + |IdMarker|][2];
      |IdMarker|
    else 0
  }

  /** The pattern matches at `p`: a marker followed by at least one id character. */
  predicate MatchAt(s: string, p: nat)
  {
    var m := MarkerLength(s, p);
    m > 0 && p + m < |s| && IsIdChar(s[p + m])
  }

  /** Length of the maximal run of id characters starting at `j`: the greedy capture. */
  function IdRun(s: string, j: nat): (k: nat)
    requires j <= |s|
    ensures j + k <= |s|
    ensures forall m :: j <= m < j + k ==> IsIdChar(s[m])
    ensures j + k == |s| || !IsIdChar(s[j + k])
    decreases |s| - j
  {
    if j < |s| && IsIdChar(s[j]) then 1 + IdRun(s, j + 1) else 0
  }

  /** The leftmost position at or after `from` where the pattern matches. */
  function FindMatch(s: string, from: nat): (r: Option<nat>)
    ensures r.Some? ==> from <= r.value < |s| && MatchAt(s, r.value)
    ensures forall p :: from <= p && (r.None? || p < r.value) ==> !MatchAt(s, p)
    decreases |s| - from
  {
    if from >= |s| then None
    else if MatchAt(s, from) then Some(from)
    else FindMatch(s, from + 1)
  }

  /** The captured group of the leftmost match. */
  function Captured(s: string, p: nat): (id: string)
    requires p < |s| && MatchAt(s, p)
    ensures |id| > 0
    ensures forall k :: 0 <= k < |id| ==> IsIdChar(id[k])
  {
    var start := p + MarkerLength(s, p);
    s[start..start + IdRun(s, start)]
  }

  /** `extractDriveId`: the captured id when the pattern matches, else the input unchanged. */
  function ExtractDriveId(input: string): (id: string)
    ensures FindMatch(input, 0).None? ==> id == input
    ensures FindMatch(input, 0).Some? ==> id == Captured(input, FindMatch(input, 0).value)
  {
    match FindMatch(input, 0)
    case None => input
    case Some(p) => Captured(input, p)
  }

  /** The patch the change handler hands to the editor. */
  datatype Patch = Set(value: string) | Unset

  /** `handleChange`: `set(id)` for a non-empty id, `unset()` otherwise. */
  function HandleChange(inputValue: string): (patch: Patch)
    ensures patch.Unset? <==> inputValue == ""
    ensures patch.Set? ==> patch.value == ExtractDriveId(inputValue) && patch.value != ""
  {
    var driveId := ExtractDriveId(inputValue);
    if driveId != "" then Set(driveId) else Unset
  }

  /** The badge condition: a non-empty value longer than 20 characters without a slash. */
  predicate ShowsBadge(value: string)
  {
    value != "" && |value| > 20 && '/' !in value
  }

  // ---------------------------------------------------------------------------
  // Properties
  // ---------------------------------------------------------------------------

  /** A string made only of id characters contains no marker, so the pattern never matches in it. */
  lemma IdCharsNeverMatch(s: string)
    requires forall k :: 0 <= k < |s| ==> IsIdChar(s[k])
    ensures FindMatch(s, 0).None?
  {
    forall p: nat | p < |s| ensures !MatchAt(s, p) {
      NoMarkerAmongIdChars(s, p);
    }
  }

  /** No marker starts where its last character (`/` or `=`) would be an id character. */
  lemma NoMarkerAmongIdChars(s: string, p: nat)
    requires p + 7 < |s| ==> IsIdChar(s[p + 7])
    requires p + 2 < |s| ==> IsIdChar(s[p + 2])
    ensures MarkerLength(s, p) == 0
  {
  }

  /** Extracting from an extracted id gives it back: pasting a result again changes nothing. */
  lemma ExtractIdempotent(input: string)
    ensures ExtractDriveId(ExtractDriveId(input)) == ExtractDriveId(input)
  {
    if FindMatch(input, 0).Some? {
      IdCharsNeverMatch(ExtractDriveId(input));
    }
  }

  /** A long id taken out of a link is confirmed by the badge; a link the pattern missed is not. */
  lemma BadgeAfterExtract(input: string)
    ensures FindMatch(input, 0).Some? && |ExtractDriveId(input)| > 20 ==> ShowsBadge(ExtractDriveId(input))
    ensures FindMatch(input, 0).None? && '/' in input ==> !ShowsBadge(ExtractDriveId(input))
  {
    var id := ExtractDriveId(input);
    if FindMatch(input, 0).Some? {
      assert forall k :: 0 <= k < |id| ==> id[k] != '/';
    }
  }

  /** Text without `=` and without `folders/` holds no marker, whatever follows it. */
  predicate NoMarkerIn(prefix: string)
  {
    '=' !in prefix && forall p: nat :: p < |prefix| ==> !FoldersAt(prefix, p)
  }

  /** No marker starts inside a marker-free prefix, even one running into the marker that follows it. */
  lemma NoMarkerBefore(prefix: string, marker: string, rest: string, p: nat)
    requires marker == FoldersMarker || marker == IdMarker
    requires NoMarkerIn(prefix) && p < |prefix|
    ensures MarkerLength(prefix + marker + rest, p) == 0
  {
    var s := prefix + marker + rest;
    var n := |prefix|;
    assert s[n] == marker[0];
    if p + |FoldersMarker| <= |s| {
      if p + |FoldersMarker| <= n {
        assert s[p..p + |FoldersMarker|] == prefix[p..p + |FoldersMarker|];
        assert !FoldersAt(prefix, p);
      } else {
        assert s[p..p + |FoldersMarker|][n - p] == s[n];
        assert FoldersMarker[n - p] != marker[0];
      }
    }
    if p + |IdMarker| <= |s| {
      if p + |IdMarker| <= n {
        assert s[p..p + |IdMarker|][2] == s[p + 2] == prefix[p + 2];
      } else {
        assert s[p..p + |IdMarker|][n - p] == s[n];
        assert IdMarker[n - p] != marker[0];
      }
    }
  }

  /** A marker written at `n` is the one found there. */
  lemma MarkerLengthAt(s: string, n: nat, marker: string)
    requires marker == FoldersMarker || marker == IdMarker
    requires n + |marker| <= |s| && s[n..n + |marker|] == marker
    ensures MarkerLength(s, n) == |marker|
  {
    if marker == IdMarker {
      assert s[n] == s[n..n + |marker|][0];
      if n + |FoldersMarker| <= |s| {
        assert s[n] == s[n..n + |FoldersMarker|][0];
      }
    }
  }

  /** A match with no match before it is the leftmost one. */
  lemma FindMatchIs(s: string, from: nat, n: nat)
    requires from <= n < |s| && MatchAt(s, n)
    requires forall p: nat :: from <= p < n ==> !MatchAt(s, p)
    ensures FindMatch(s, from) == Some(n)
  {
  }

  /** The leftmost match of a marker-free prefix, a marker and an id character lies right after the prefix. */
  lemma FirstMatchAfter(prefix: string, marker: string, rest: string)
    requires marker == FoldersMarker || marker == IdMarker
    requires NoMarkerIn(prefix)
    requires |rest| > 0 && IsIdChar(rest[0])
    ensures FindMatch(prefix + marker + rest, 0) == Some(|prefix|)
    ensures MarkerLength(prefix + marker + rest, |prefix|) == |marker|
  {
    var s := prefix + marker + rest;
    var n := |prefix|;
    forall p: nat | p < n ensures !MatchAt(s, p) {
      NoMarkerBefore(prefix, marker, rest, p);
    }
    assert s[n..n + |marker|] == marker;
    MarkerLengthAt(s, n, marker);
    assert s[n + |marker|] == rest[0];
    assert MatchAt(s, n);
    FindMatchIs(s, 0, n);
  }

  /** A link made of a marker-free prefix, a marker, an id and a non-id character (or the end) yields that id. */
  lemma ExtractAfterMarker(prefix: string, marker: string, id: string, suffix: string)
    requires marker == FoldersMarker || marker == IdMarker
    requires NoMarkerIn(prefix)
    requires |id| > 0 && forall k :: 0 <= k < |id| ==> IsIdChar(id[k])
    requires suffix == [] || !IsIdChar(suffix[0])
    ensures ExtractDriveId(prefix + marker + id + suffix) == id
  {
    var s := prefix + marker + id + suffix;
    var start := |prefix| + |marker|;
    assert s == prefix + marker + (id + suffix);
    FirstMatchAfter(prefix, marker, id + suffix);
    assert s[start..] == id + suffix;
    CaptureIs(s, start, id, suffix);
  }

  /** Where the text goes on with an id and then a non-id character (or ends), the capture is that id. */
  lemma CaptureIs(s: string, start: nat, id: string, suffix: string)
    requires start <= |s| && s[start..] == id + suffix
    requires forall k :: 0 <= k < |id| ==> IsIdChar(id[k])
    requires suffix == [] || !IsIdChar(suffix[0])
    ensures start + |id| <= |s| && IdRun(s, start) == |id| && s[start..start + |id|] == id
  {
    forall k | start <= k < start + |id| ensures IsIdChar(s[k]) {
      assert s[k] == s[start..][k - start];
    }
    if start + |id| < |s| {
      assert s[start + |id|] == s[start..][|id|];
    }
    IdRunIs(s, start, |id|);
    assert s[start..start + |id|] == s[start..][..|id|];
  }

  /** Text without `f` and `=` cannot hold a marker. */
  lemma NoMarkerWithoutLetters(prefix: string)
    requires 'f' !in prefix && '=' !in prefix
    ensures NoMarkerIn(prefix)
  {
    forall p: nat | p < |prefix| ensures !FoldersAt(prefix, p) {
      if p + |FoldersMarker| <= |prefix| {
        assert prefix[p..p + |FoldersMarker|][0] == prefix[p];
      }
    }
  }

  /** A sample folder id: six id characters. */
  const SampleId := "1A2B3C"

  /** A folder link as the storage site shares it gives the folder id. */
  lemma ExtractFolderLink(host: string, link: string)
    requires host == "https://drive.google.com/drive/"
    requires link == host + FoldersMarker + SampleId
    ensures ExtractDriveId(link) == SampleId
  {
    assert forall k :: 0 <= k < |SampleId| ==> IsIdChar(SampleId[k]);
    NoMarkerWithoutLetters(host);
    assert link == host + FoldersMarker + SampleId + "";
    ExtractAfterMarker(host, FoldersMarker, SampleId, "");
  }

  /** A folder link of a signed-in account, with a sharing query, gives the folder id. */
  lemma ExtractSharingLink(host: string, query: string, link: string)
    requires host == "https://drive.google.com/drive/u/0/" && query == "?usp=sharing"
    requires link == host + FoldersMarker + SampleId + query
    ensures ExtractDriveId(link) == SampleId
  {
    assert forall k :: 0 <= k < |SampleId| ==> IsIdChar(SampleId[k]);
    NoMarkerWithoutLetters(host);
    ExtractAfterMarker(host, FoldersMarker, SampleId, query);
  }

  /** An `open?id=` link gives the folder id. */
  lemma ExtractOpenLink(host: string, link: string)
    requires host == "https://drive.google.com/open?"
    requires link == host + IdMarker + SampleId
    ensures ExtractDriveId(link) == SampleId
  {
    assert forall k :: 0 <= k < |SampleId| ==> IsIdChar(SampleId[k]);
    NoMarkerWithoutLetters(host);
    assert link == host + IdMarker + SampleId + "";
    ExtractAfterMarker(host, IdMarker, SampleId, "");
  }

  /** A bare id is kept as typed. */
  lemma ExtractBareId()
    ensures ExtractDriveId(SampleId) == SampleId
  {
    assert forall k :: 0 <= k < |SampleId| ==> IsIdChar(SampleId[k]);
    IdCharsNeverMatch(SampleId);
  }

  /** An id run is pinned down by its characters and the character (or end) that follows it. */
  lemma {:induction false} IdRunIs(s: string, j: nat, k: nat)
    requires j + k <= |s|
    requires forall m :: j <= m < j + k ==> IsIdChar(s[m])
    requires j + k == |s| || !IsIdChar(s[j + k])
    ensures IdRun(s, j) == k
    decreases k
  {
    if k > 0 {
      IdRunIs(s, j + 1, k - 1);
    }
  }
}
