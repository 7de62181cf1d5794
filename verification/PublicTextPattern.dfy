/** The unsafe-string pattern as a set of words, and text as what contains none of them. */
module PublicTextPattern {
  import opened PublicText

  /** A root directory of a host. */
  predicate HostRoot(w: string) {
    || w == "/home/" || w == "/Users/" || w == "/tmp/" || w == "/var/" || w == "/etc/"
    || w == "/opt/" || w == "/srv/" || w == "/mnt/" || w == "/Volumes/"
  }

  /** A letter, a colon and a slash of either kind. */
  predicate DriveRoot(w: string) {
    |w| == 3 && IsLetter(w[0]) && w[1] == ':' && (w[2] == '/' || w[2] == '\\')
  }

  /** A letter, then letters, digits, plus, dots or hyphens, then `://`. */
  predicate UrlStart(w: string) {
    && |w| >= 4 && IsLetter(w[0]) && w[|w| - 3] == ':' && w[|w| - 2] == '/' && w[|w| - 1] == '/'
    && forall k :: 0 < k < |w| - 3 ==> IsLetter(w[k]) || IsDigit(w[k]) || w[k] == '+' || w[k] == '.' || w[k] == '-'
  }

  /** Two backslashes, a host, a backslash and a character of a share; none of them white space. */
  predicate ShareStart(w: string) {
    && |w| >= 5 && w[0] == '\\' && w[1] == '\\' && w[|w| - 2] == '\\'
    && forall k :: 2 <= k < |w| && k != |w| - 2 ==> w[k] != '\\' && !IsSpace(w[k])
  }

  predicate UnsafeWord(w: string) {
    HostRoot(w) || DriveRoot(w) || UrlStart(w) || ShareStart(w)
  }

  /** Text is safe exactly when no part of it is an unsafe word. */
  lemma SafeTextExactly(s: string)
    ensures SafeText(s) <==> forall i, j :: 0 <= i <= j <= |s| ==> !UnsafeWord(s[i..j])
  {
    if SafeText(s) {
      forall i, j | 0 <= i <= j <= |s| ensures !UnsafeWord(s[i..j]) {
        if UnsafeWord(s[i..j]) {
          WordIsUnsafe(s, i, j);
          assert false;
        }
      }
    } else {
      var i :| 0 <= i < |s| && UnsafeAt(s, i);
      var j := UnsafeHasWord(s, i);
      assert UnsafeWord(s[i..j]);
    }
  }

  lemma WordIsUnsafe(s: string, i: nat, j: nat)
    requires i <= j <= |s| && UnsafeWord(s[i..j])
    ensures i < |s| && UnsafeAt(s, i)
  {
    var w := s[i..j];
    if UrlStart(w) {
      assert StartsAt(s, j - 3, "://");
      forall k | i < k < j - 3 ensures IsSchemeChar(s[k]) {
        assert s[k] == w[k - i];
      }
      assert SchemeAt(s, i);
    } else if ShareStart(w) {
      forall k | i + 2 <= k < j && k != j - 2 ensures SegmentCharAt(s, k) {
        assert s[k] == w[k - i];
      }
      assert ShareSeparatorAt(s, j - 2);
      assert ShareAt(s, i);
    } else if HostRoot(w) {
      assert StartsAt(s, i, w);
    } else {
      assert DriveAt(s, i);
    }
  }

  lemma UnsafeHasWord(s: string, i: nat) returns (j: nat)
    requires i < |s| && UnsafeAt(s, i)
    ensures i <= j <= |s| && UnsafeWord(s[i..j])
  {
    if SchemeAt(s, i) {
      var n :| i < n < |s| && StartsAt(s, n, "://") && forall k :: i < k < n ==> IsSchemeChar(s[k]);
      j := n + 3;
      assert s[n] == "://"[0] && s[n + 1] == "://"[1] && s[n + 2] == "://"[2];
      assert UrlStart(s[i..j]);
    } else if ShareAt(s, i) {
      var n :| i + 2 < n < |s| && ShareSeparatorAt(s, n) && forall k :: i + 2 <= k < n ==> SegmentCharAt(s, k);
      j := n + 2;
      assert s[i] == "\\\\"[0] && s[i + 1] == "\\\\"[1];
      var w := s[i..j];
      forall k | 2 <= k < |w| && k != |w| - 2 ensures w[k] != '\\' && !IsSpace(w[k]) {
        assert w[k] == s[i + k] && SegmentCharAt(s, i + k);
      }
      assert ShareStart(w);
    } else if DriveAt(s, i) {
      j := i + 3;
      assert DriveRoot(s[i..j]);
    } else {
      j := HostRootThere(s, i);
    }
  }

  lemma HostRootThere(s: string, i: nat) returns (j: nat)
    requires i < |s| && HostPathAt(s, i)
    ensures i <= j <= |s| && HostRoot(s[i..j])
  {
    var root :=
      if StartsAt(s, i, "/home/") then "/home/" else if StartsAt(s, i, "/Users/") then "/Users/"
      else if StartsAt(s, i, "/tmp/") then "/tmp/" else if StartsAt(s, i, "/var/") then "/var/"
      else if StartsAt(s, i, "/etc/") then "/etc/" else if StartsAt(s, i, "/opt/") then "/opt/"
      else if StartsAt(s, i, "/srv/") then "/srv/" else if StartsAt(s, i, "/mnt/") then "/mnt/" else "/Volumes/";
    assert StartsAt(s, i, root);
    j := i + |root|;
    assert s[i..j] == root;
  }
}
