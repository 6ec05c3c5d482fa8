/**
 The parts of an image reference and of a digest (src/wudup/images.py), without the scans that
 find them.
 */
module ImageReferences {
  import opened Ordering
  import opened DigestUnpin

  // ---------- References ----------

  /** `name` is the image up to its first `@sha256:`. */
  ghost predicate WithoutDigest(image: string, name: string) {
    && (image == name || name + "@sha256:" <= image)
    && forall i :: 0 <= i < |name| ==> !("@sha256:" <= image[i..])
  }

  /** `repo` is the name without its tag: what follows a colon behind the last slash. */
  ghost predicate WithoutTag(name: string, repo: string) {
    if repo == name then forall i :: 0 <= i < |name| && name[i] == ':' ==> exists j :: i < j < |name| && name[j] == '/'
    else repo + ":" <= name && forall i :: |repo| < i < |name| ==> name[i] != ':' && name[i] != '/'
  }

  ghost predicate RepoOf(image: string, repo: string) {
    exists name :: WithoutDigest(image, name) && WithoutTag(name, repo)
  }

  lemma {:induction false} StripDigestIs(image: string)
    ensures WithoutDigest(image, StripDigest(image))
  {
    if image == "" {
    } else if "@sha256:" <= image {
      assert "" + "@sha256:" == "@sha256:";
    } else {
      var rest := image[1..];
      StripDigestIs(rest);
      var name := StripDigest(image);
      assert name == [image[0]] + StripDigest(rest);
      StartsAgain(image, StripDigest(rest));
      forall i | 0 <= i < |name| ensures !("@sha256:" <= image[i..]) {
        if i == 0 { assert image[0..] == image; } else { assert image[i..] == rest[i - 1..]; }
      }
    }
  }

  lemma StartsAgain(image: string, name: string)
    requires image != "" && (image[1..] == name || name + "@sha256:" <= image[1..])
    ensures image == [image[0]] + name || [image[0]] + name + "@sha256:" <= image
  {
    assert image == [image[0]] + image[1..];
    assert [image[0]] + name + "@sha256:" == [image[0]] + (name + "@sha256:");
  }

  lemma {:induction false} AfterLastIs(c: char, s: string)
    ensures var n := AfterLast(c, s);
            (if n == 0 then c !in s else s[n - 1] == c) && forall i :: n <= i < |s| ==> s[i] != c
  {
    if s != "" && s[|s| - 1] != c {
      AfterLastIs(c, s[..|s| - 1]);
      assert s == s[..|s| - 1] + [s[|s| - 1]];
    }
  }

  lemma RepoRefIs(image: string)
    ensures RepoOf(image, ImageRepoRef(image))
  {
    StripDigestIs(image);
    TagIsStripped(StripDigest(image));
  }

  lemma TagIsStripped(s: string)
    ensures var n := AfterLast('/', s);
            var last := s[n..];
            var k := AfterLast(':', last);
            WithoutTag(s, s[..n] + if k == 0 then last else last[..k - 1])
  {
    hide *;
    var n := AfterLast('/', s);
    AfterLastIs('/', s);
    AfterLastIs(':', s[n..]);
    var k := AfterLast(':', s[n..]);
    if k == 0 {
      NoTag(s, n);
    } else {
      TagBehind(s, n, k);
    }
  }

  lemma NoTag(s: string, n: nat)
    requires n <= |s| && (n > 0 ==> s[n - 1] == '/') && ':' !in s[n..]
    ensures WithoutTag(s, s[..n] + s[n..])
  {
    assert s[..n] + s[n..] == s;
    forall i | n <= i < |s| ensures s[i] != ':' {
      assert s[i] == s[n..][i - n];
    }
    forall i | 0 <= i < |s| && s[i] == ':' ensures exists j :: i < j < |s| && s[j] == '/' {
      assert s[n - 1] == '/';
    }
  }

  lemma TagBehind(s: string, n: nat, k: nat)
    requires n <= |s| && 0 < k <= |s| - n && s[n..][k - 1] == ':'
    requires forall i :: n <= i < |s| ==> s[i] != '/'
    requires forall i :: k <= i < |s| - n ==> s[n..][i] != ':'
    ensures WithoutTag(s, s[..n] + s[n..][..k - 1])
  {
    var repo := s[..n] + s[n..][..k - 1];
    assert repo == s[..n + k - 1];
    assert repo + ":" == s[..n + k];
    forall i | |repo| < i < |s| ensures s[i] != ':' && s[i] != '/' {
      assert s[i] == s[n..][i - n];
    }
  }

  /** The image that an update moves to: its repository, a colon and the tag. */
  lemma TagImageIs(image: string, tag: string, digest: string, services: seq<string>)
    ensures exists repo :: RepoOf(image, repo) && UpdateFromValues(image, tag, digest, services).tagImage == repo + ":" + tag
  {
    RepoRefIs(image);
    hide RepoOf, ImageRepoRef, NormalizeDigest;
  }

  // ---------- Digests ----------

  /** `rest` is what follows the first `@`, or everything. */
  ghost predicate BehindAt(digest: string, rest: string) {
    (rest == digest && '@' !in digest) || exists front :: '@' !in front && digest == front + "@" + rest
  }

  lemma {:induction false} AfterAtIs(s: string)
    ensures BehindAt(s, AfterAt(s))
  {
    if '@' in s {
      if s[0] == '@' {
        assert s == "" + "@" + s[1..];
      } else {
        var rest := s[1..];
        assert s == [s[0]] + rest;
        AfterAtIs(rest);
        var front :| '@' !in front && rest == front + "@" + AfterAt(rest);
        assert s == [s[0]] + front + "@" + AfterAt(s);
        assert '@' !in [s[0]] + front;
      }
    }
  }

  /** An empty digest stays empty; any other is what follows its first `@`, with `sha256:` in front. */
  lemma NormalizedIs(digest: string)
    ensures digest == "" ==> NormalizeDigest(digest) == ""
    ensures digest != "" ==>
              exists rest :: BehindAt(digest, rest)
                             && NormalizeDigest(digest) == if "sha256:" <= rest then rest else "sha256:" + rest
  {
    AfterAtIs(digest);
    hide BehindAt, AfterAt;
  }
}
