/** Which strings may appear in a public episode document, and the notes the projection adds. */
module PublicText {

  // ---- the unsafe-string pattern, alternative by alternative ----

  predicate IsLetter(c: char) {
    'a' <= c <= 'z' || 'A' <= c <= 'Z'
  }

  predicate IsDigit(c: char) {
    '0' <= c <= '9'
  }

  /** The ASCII characters that the pattern takes for white space. */
  predicate IsSpace(c: char) {
    c == ' ' || '\t' <= c <= '\r' || '\U{1C}' <= c <= '\U{1F}'
  }

  predicate StartsAt(s: string, i: nat, prefix: string) {
    i + |prefix| <= |s| && forall k :: 0 <= k < |prefix| ==> s[i + k] == prefix[k]
  }

  predicate IsSchemeChar(c: char) {
    IsLetter(c) || IsDigit(c) || c == '+' || c == '.' || c == '-'
  }

  /** `name://` with a letter first. */
  predicate SchemeAt(s: string, i: nat)
    requires i < |s|
  {
    && IsLetter(s[i])
    && exists j :: i < j < |s| && StartsAt(s, j, "://")
         && forall k :: i < k < j ==> IsSchemeChar(s[k])
  }

  /** A drive letter, a colon and a slash of either kind. */
  predicate DriveAt(s: string, i: nat)
    requires i < |s|
  {
    i + 2 < |s| && IsLetter(s[i]) && s[i + 1] == ':' && (s[i + 2] == '\\' || s[i + 2] == '/')
  }

  /** Position `i` holds a character that may stand in a share path segment. */
  predicate SegmentCharAt(s: string, i: nat) {
    i < |s| && s[i] != '\\' && !IsSpace(s[i])
  }

  /** The backslash after a host name, with the start of a share behind it. */
  predicate ShareSeparatorAt(s: string, i: nat) {
    i < |s| && s[i] == '\\' && SegmentCharAt(s, i + 1)
  }

  /** Two backslashes, a host, a backslash and the start of a share. */
  predicate ShareAt(s: string, i: nat)
    requires i < |s|
  {
    && StartsAt(s, i, "\\\\")
    && exists j :: i + 2 < j < |s| && ShareSeparatorAt(s, j)
         && forall k :: i + 2 <= k < j ==> SegmentCharAt(s, k)
  }

  predicate HostPathAt(s: string, i: nat)
    requires i < |s|
  {
    || StartsAt(s, i, "/home/") || StartsAt(s, i, "/Users/") || StartsAt(s, i, "/tmp/")
    || StartsAt(s, i, "/var/") || StartsAt(s, i, "/etc/") || StartsAt(s, i, "/opt/")
    || StartsAt(s, i, "/srv/") || StartsAt(s, i, "/mnt/") || StartsAt(s, i, "/Volumes/")
  }

  predicate UnsafeAt(s: string, i: nat)
    requires i < |s|
  {
    SchemeAt(s, i) || DriveAt(s, i) || ShareAt(s, i) || HostPathAt(s, i)
  }

  /** The pattern is found nowhere in the string. */
  predicate SafeText(s: string) {
    forall i :: 0 <= i < |s| ==> !UnsafeAt(s, i)
  }

  /** No slash of either kind. */
  predicate Plain(s: string) {
    forall i :: 0 <= i < |s| ==> s[i] != '/' && s[i] != '\\'
  }

  lemma PlainNeverStartsWith(s: string, i: nat, prefix: string, k: nat)
    requires Plain(s) && k < |prefix| && (prefix[k] == '/' || prefix[k] == '\\')
    ensures !StartsAt(s, i, prefix)
  {
    if i + |prefix| <= |s| {
      assert s[i + k] != prefix[k];
    }
  }

  /** Every alternative of the pattern needs a slash. */
  lemma PlainTextIsSafe(s: string)
    requires Plain(s)
    ensures SafeText(s)
  {
    forall i | 0 <= i < |s| ensures !UnsafeAt(s, i) {
      forall j: nat ensures !StartsAt(s, j, "://") {
        PlainNeverStartsWith(s, j, "://", 1);
      }
      PlainNeverStartsWith(s, i, "\\\\", 0);
      PlainNeverStartsWith(s, i, "/home/", 0);
      PlainNeverStartsWith(s, i, "/Users/", 0);
      PlainNeverStartsWith(s, i, "/tmp/", 0);
      PlainNeverStartsWith(s, i, "/var/", 0);
      PlainNeverStartsWith(s, i, "/etc/", 0);
      PlainNeverStartsWith(s, i, "/opt/", 0);
      PlainNeverStartsWith(s, i, "/srv/", 0);
      PlainNeverStartsWith(s, i, "/mnt/", 0);
      PlainNeverStartsWith(s, i, "/Volumes/", 0);
    }
  }

  /** A single slash between two texts without slashes, and no colon, is harmless. */
  lemma OneSlashIsSafe(a: string, b: string)
    requires Plain(a) && Plain(b) && ':' !in a && ':' !in b
    ensures SafeText(a + "/" + b)
  {
    var s := a + "/" + b;
    forall i | 0 <= i < |s| && i != |a| ensures s[i] != '/' && s[i] != '\\' && s[i] != ':' {
      if i < |a| {
        assert s[i] == a[i];
      } else {
        assert s[i] == b[i - |a| - 1];
      }
    }
    forall i | 0 <= i < |s| ensures !UnsafeAt(s, i) {
      forall j: nat ensures !StartsAt(s, j, "://") {
        if StartsAt(s, j, "://") {
          FirstCharMatches(s, j, "://");
        }
      }
      if StartsAt(s, i, "\\\\") {
        FirstCharMatches(s, i, "\\\\");
      }
      TwoSlashesNeeded(s, |a|, i, "/home/");
      TwoSlashesNeeded(s, |a|, i, "/Users/");
      TwoSlashesNeeded(s, |a|, i, "/tmp/");
      TwoSlashesNeeded(s, |a|, i, "/var/");
      TwoSlashesNeeded(s, |a|, i, "/etc/");
      TwoSlashesNeeded(s, |a|, i, "/opt/");
      TwoSlashesNeeded(s, |a|, i, "/srv/");
      TwoSlashesNeeded(s, |a|, i, "/mnt/");
      TwoSlashesNeeded(s, |a|, i, "/Volumes/");
    }
  }

  lemma FirstCharMatches(s: string, i: nat, prefix: string)
    requires prefix != [] && StartsAt(s, i, prefix)
    ensures i < |s| && s[i] == prefix[0]
  {
    assert s[i + 0] == prefix[0];
  }

  lemma TwoSlashesNeeded(s: string, n: nat, i: nat, prefix: string)
    requires forall k :: 0 <= k < |s| && k != n ==> s[k] != '/'
    requires |prefix| >= 2 && prefix[0] == '/' && prefix[|prefix| - 1] == '/'
    ensures !StartsAt(s, i, prefix)
  {
    if i + |prefix| <= |s| && s[i] == '/' {
      assert s[i + (|prefix| - 1)] != '/';
    }
  }

  // ---- identifiers and metric names ----

  predicate IsWordChar(c: char) {
    IsLetter(c) || IsDigit(c) || c == '.' || c == '_' || c == '-'
  }

  /** The `Identifier` pattern. */
  predicate IsIdentifier(s: string) {
    1 <= |s| <= 128 && (IsLetter(s[0]) || IsDigit(s[0])) && forall i :: 0 <= i < |s| ==> IsWordChar(s[i])
  }

  predicate IsMetricName(s: string) {
    1 <= |s| <= 64 && IsLetter(s[0]) && forall i :: 0 <= i < |s| ==> IsWordChar(s[i])
  }

  function LowerChar(c: char): char {
    if 'A' <= c <= 'Z' then (c - 'A') + 'a' else c
  }

  function Lower(s: string): (r: string)
    ensures |r| == |s|
  {
    seq(|s|, i requires 0 <= i < |s| => LowerChar(s[i]))
  }

  /** Field names that no public document may use, in any capitalisation. */
  const FORBIDDEN_KEYS: set<string> := {
    "artifact_ref", "artifact_path", "local_path", "remote_path", "source_path", "signed_url",
    "collector_identity", "credential", "credentials", "password", "secret", "token", "command_payload",
    "command_output", "model_prompt", "model_response", "prompt", "payload", "path", "raw_payload",
    "hostname", "uri", "url"}

  predicate PublicKey(s: string) {
    Lower(s) !in FORBIDDEN_KEYS
  }

  // ---- the texts the projection writes itself ----

  const SECRET_NOTE := "SECRET observation metadata is " + "redacted by the control plane."
  const UNAVAILABLE_NOTE := "Observation asset evidence " + "is unavailable."
  const WITHHELD_TITLE := "Evidence unavailable"
  const WITHHELD_SUMMARY :=
    "The producer committed event " + "metadata, but no supporting public "
    + "evidence or available observation " + "asset was committed."
  const WITHHELD_NOTE := "The original non-declared event was " + "withheld because its evidence is missing."
  const CLOCK_NOTE :=
    "Timeline clock synchronization is " + "degraded or unavailable; offset_ms "
    + "remains the ordering authority."

  function AssetNote(id: string): string {
    "Asset " + id + " has no available " + "observation evidence."
  }

  function EventNote(id: string): string {
    "Event " + id + " was reduced to a " + "missing-evidence alert."
  }

  function FindingNote(id: string): string {
    "Finding " + id + " was withheld because " + "supporting evidence is missing."
  }

  lemma PlainConcat(a: string, b: string)
    requires Plain(a) && Plain(b)
    ensures Plain(a + b)
  {
  }

  lemma PlainPartsAreSafe(a: string, b: string, c: string, d: string)
    requires Plain(a) && Plain(b) && Plain(c) && Plain(d)
    ensures SafeText(a + b) && SafeText(a + b + c) && SafeText(a + b + c + d)
  {
    PlainConcat(a, b);
    PlainTextIsSafe(a + b);
    PlainConcat(a + b, c);
    PlainTextIsSafe(a + b + c);
    PlainConcat(a + b + c, d);
    PlainTextIsSafe(a + b + c + d);
  }

  lemma AssetTextsAreSafe()
    ensures SafeText(SECRET_NOTE) && SafeText(UNAVAILABLE_NOTE)
  {
    PlainPartsAreSafe("SECRET observation metadata is ", "redacted by the control plane.", "", "");
    PlainPartsAreSafe("Observation asset evidence ", "is unavailable.", "", "");
  }

  lemma EventTextsAreSafe()
    ensures SafeText(WITHHELD_TITLE) && SafeText(WITHHELD_NOTE)
  {
    PlainTextIsSafe(WITHHELD_TITLE);
    PlainPartsAreSafe("The original non-declared event was ", "withheld because its evidence is missing.", "", "");
  }

  lemma WithheldSummaryIsSafe()
    ensures SafeText(WITHHELD_SUMMARY)
  {
    PlainPartsAreSafe("The producer committed event ", "metadata, but no supporting public ",
                      "evidence or available observation ", "asset was committed.");
  }

  lemma ClockNoteIsSafe()
    ensures SafeText(CLOCK_NOTE)
  {
    PlainPartsAreSafe("Timeline clock synchronization is ", "degraded or unavailable; offset_ms ",
                      "remains the ordering authority.", "");
  }

  /** Notes quote ids only, and an id has no slash to make a note unsafe. */
  lemma NotesAreSafe(id: string)
    requires IsIdentifier(id)
    ensures SafeText(AssetNote(id)) && SafeText(EventNote(id)) && SafeText(FindingNote(id))
  {
    assert Plain(id);
    PlainPartsAreSafe("Asset ", id, " has no available ", "observation evidence.");
    PlainPartsAreSafe("Event ", id, " was reduced to a ", "missing-evidence alert.");
    PlainPartsAreSafe("Finding ", id, " was withheld because ", "supporting evidence is missing.");
  }

  // ---- limitation lists ----

  const MAX_LIMITATIONS := 32

  /** `list(dict.fromkeys(values))`: first occurrences, in order. */
  function Dedup<T(==,!new)>(values: seq<T>): (d: seq<T>)
    ensures forall x :: x in d <==> x in values
    ensures forall i, j :: 0 <= i < j < |d| ==> d[i] != d[j]
    ensures |d| <= |values|
  {
    if values == [] then []
    else
      var init := Dedup(values[..|values| - 1]);
      var last := values[|values| - 1];
      assert values == values[..|values| - 1] + [last];
      if last in init then init else init + [last]
  }

  lemma {:induction false} DedupExtends<T(!new)>(a: seq<T>, b: seq<T>)
    ensures Dedup(a) <= Dedup(a + b)
  {
    if b == [] {
      assert a + b == a;
    } else {
      var init := b[..|b| - 1];
      DedupExtends(a, init);
      assert (a + b)[..|a + b| - 1] == a + init;
    }
  }

  function UniqueLimitations(values: seq<string>): seq<string> {
    var d := Dedup(values);
    if |d| <= MAX_LIMITATIONS then d else d[..MAX_LIMITATIONS]
  }

  /** The producer's own limitations come first and are few enough, so none of them is cut off. */
  lemma OwnLimitationsSurvive(own: seq<string>, added: seq<string>)
    requires |own| <= MAX_LIMITATIONS
    ensures |UniqueLimitations(own + added)| <= MAX_LIMITATIONS
    ensures forall x :: x in own ==> x in UniqueLimitations(own + added)
    ensures forall x :: x in UniqueLimitations(own + added) ==> x in own || x in added
  {
    DedupExtends(own, added);
    var d := Dedup(own + added);
    assert forall x :: x in own ==> x in Dedup(own);
    forall x | x in own ensures x in UniqueLimitations(own + added) {
      var i :| 0 <= i < |Dedup(own)| && Dedup(own)[i] == x;
      assert UniqueLimitations(own + added)[i] == x;
    }
    assert forall x :: x in UniqueLimitations(own + added) ==> x in d;
  }
}
