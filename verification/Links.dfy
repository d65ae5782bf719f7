/**
 Download links before and after an upload: the path GenerateLink stores for a local file
 (internal/core/service/download.go), the URIs of remote storage (internal/core/storage/rclone.go and
 registry.go), and the rewriting of stored links once the files have moved.
 */
module Links {
  import opened Reports
  import opened Tables
  import opened Strings
  import Hex

  // ---------- Local files ----------

  /** The path of file f of a job: engines keep each storage key in a directory of their own. */
  function FilePath(engineDir: string, key: string, f: string): string {
    engineDir + "/" + key + "/" + f
  }

  /** What GenerateLink stores for a local file. */
  function LocalLink(storageUri: string, downloadDir: string): string {
    TrimPrefix(TrimPrefix(storageUri, "file://"), downloadDir + "/")
  }

  // ---------- Remote files ----------

  /** Where rclone keeps a storage key. */
  function RemotePath(remote: string, base: string, key: string): string {
    remote + ":" + base + (if key != "" then "/" + key else "")
  }

  /** The URI an upload returns. */
  function UploadUri(remote: string, base: string, key: string): string {
    "rclone://" + RemotePath(remote, base, key)
  }

  function BuildRemoteFileUri(uri: string, f: string): string {
    if f == "" then uri else TrimRight(uri, '/') + "/" + f
  }

  // ---------- LIKE on literal prefixes ----------

  predicate Literal(s: string) {
    forall i :: 0 <= i < |s| ==> s[i] != '%' && s[i] != '_' && s[i] != '\\'
  }

  lemma LikeAnything(s: string)
    ensures Like(s, "%")
  {
    if s != "" {
      LikeAnything(s[1..]);
    } else {
      assert Like(s, "%"[1..]);
    }
  }

  /** Without wildcards in it, "prefix%" matches exactly the texts with that prefix. */
  lemma {:induction false} LikePrefix(s: string, prefix: string)
    requires Literal(prefix)
    ensures Like(s, prefix + "%") <==> prefix <= s
    decreases |prefix|
  {
    var pattern := prefix + "%";
    if prefix == "" {
      assert pattern == "%";
      LikeAnything(s);
    } else {
      assert pattern[0] == prefix[0] && pattern[1..] == prefix[1..] + "%";
      if s != "" {
        LikePrefix(s[1..], prefix[1..]);
        assert s == [s[0]] + s[1..] && prefix == [prefix[0]] + prefix[1..];
      }
    }
  }

  /** An engine name with a wildcard would rewrite links it does not own. */
  lemma WildcardsMatchOthers()
    ensures Like("axb/k/f", "a_b/k" + "%") && !("a_b/k" <= "axb/k/f")
    ensures Rewritten("axb/k/f", "a_b/k", "rclone://r:b/k") == "rclone://r:b/k/f"
  {
    LikeAnything("/f");
    var s, p := "axb/k/f", "a_b/k" + "%";
    assert s[5..] == "/f" && p[5..] == "%";
    assert Like(s[5..], p[5..]);
    assert Like(s[4..], p[4..]);
    assert Like(s[3..], p[3..]);
    assert Like(s[2..], p[2..]);
    assert Like(s[1..], p[1..]);
    assert s[1] != "a_b/k"[1];
  }

  // ---------- Rewriting ----------

  predicate GoodKey(key: string) {
    |key| == 32 && Hex.AllLowerHex(key)
  }

  predicate GoodEngine(engine: string) {
    Literal(engine) && '/' !in engine
  }

  function OldPrefix(engine: string, key: string): string {
    engine + "/" + key
  }

  /** A file's URI has one slash between the two parts, however many the first one ends in; no file, no slash. */
  lemma OneSlash(uri: string, f: string)
    requires uri != "" && uri[|uri| - 1] != '/'
    ensures BuildRemoteFileUri(uri + "/", f) == if f == "" then uri + "/" else uri + "/" + f
    ensures BuildRemoteFileUri(uri, f) == if f == "" then uri else uri + "/" + f
  {
    assert (uri + "/")[..|uri|] == uri;
  }

  /** Where uploads end up, spelled out. */
  lemma UploadUriIs(remote: string, base: string, key: string)
    requires key != ""
    ensures UploadUri(remote, base, key) == "rclone://" + remote + ":" + base + "/" + key
    ensures TrimPrefix(UploadUri(remote, base, key), "rclone://") == remote + ":" + base + "/" + key
  {
    assert "rclone://" + (remote + ":" + base + ("/" + key)) == "rclone://" + remote + ":" + base + "/" + key;
    assert "rclone://" <= UploadUri(remote, base, key);
    assert remote + ":" + base + ("/" + key) == remote + ":" + base + "/" + key;
  }

  /** Different keys of one length have different copies. */
  lemma UrisDiffer(remote: string, base: string, k: string, k': string)
    requires |k| == |k'| > 0
    ensures UploadUri(remote, base, k) == UploadUri(remote, base, k') <==> k == k'
  {
    var x, y := UploadUri(remote, base, k), UploadUri(remote, base, k');
    assert x[|x| - |k|..] == k && y[|y| - |k'|..] == k';
  }

  /** No link into remote storage looks like a local one. */
  lemma RemoteIsNotOld(engine: string, key: string, rest: string)
    requires GoodEngine(engine) && GoodKey(key)
    ensures !(OldPrefix(engine, key) <= "rclone://" + rest)
  {
    var uri, p := "rclone://" + rest, OldPrefix(engine, key);
    assert forall k :: 0 <= k < 7 ==> uri[k] == "rclone:"[k];
    assert uri[7] == '/' && uri[8] == '/';
    assert p[|engine|] == '/' && p[|engine| + 1] == key[0] && Hex.IsLowerHex(key[0]);
    var differs := if |engine| > 7 then 7 else if |engine| < 7 then |engine| else 8;
    assert differs < |p| && differs < |uri| && p[differs] != uri[differs];
  }

  /**
   A stored link, once rewritten, is the URI a fresh listing would give exactly when it was the
   "engine/key/file" path.
   */
  lemma RewriteExactly(link: string, engine: string, key: string, f: string, remote: string, base: string)
    requires GoodEngine(engine) && GoodKey(key) && f != "" && !IsRemoteUri(link)
    ensures var uri := UploadUri(remote, base, key);
            Rewritten(link, OldPrefix(engine, key), uri) == BuildRemoteFileUri(uri, f)
            <==> link == OldPrefix(engine, key) + "/" + f
  {
    var p, uri := OldPrefix(engine, key), UploadUri(remote, base, key);
    LikePrefix(link, p);
    var listed := uri + "/" + f;
    if p <= link {
      var tail := link[|p|..];
      assert link == p + tail;
      assert (uri + tail)[|uri|..] == tail && listed[|uri|..] == "/" + f;
      assert p + "/" + f == p + ("/" + f) && (p + "/" + f)[|p|..] == "/" + f;
      assert listed == uri + ("/" + f);
    } else {
      assert IsRemoteUri(listed) by {
        assert listed == "rclone://" + (RemotePath(remote, base, key) + "/" + f);
      }
      assert p <= p + "/" + f;
    }
  }

  /**
   So the links of a node's files follow them to remote storage exactly when the engine keeps its
   files in the directory of its name under the download directory, which is the default.
   */
  lemma LinksFollowFiles(downloadDir: string, engineDir: string, engine: string, key: string, f: string,
                         remote: string, base: string)
    requires GoodEngine(engine) && GoodKey(key) && f != ""
    requires var path := FilePath(engineDir, key, f);
             !IsRemoteUri(path) && !IsRemoteUri(TrimPrefix(path, downloadDir + "/"))
    ensures var path, uri := FilePath(engineDir, key, f), UploadUri(remote, base, key);
            Rewritten(LocalLink("file://" + path, downloadDir), OldPrefix(engine, key), uri) == BuildRemoteFileUri(uri, f)
            <==> engineDir == (if downloadDir + "/" <= path then downloadDir + "/" + engine else engine)
  {
    var path := FilePath(engineDir, key, f);
    assert TrimPrefix("file://" + path, "file://") == path;
    RewriteExactly(TrimPrefix(path, downloadDir + "/"), engine, key, f, remote, base);
    hide Rewritten, UploadUri, BuildRemoteFileUri;
    DefaultPlace(downloadDir, engineDir, engine, key, f);
  }

  lemma DefaultPlace(downloadDir: string, engineDir: string, engine: string, key: string, f: string)
    ensures var path := FilePath(engineDir, key, f);
            TrimPrefix(path, downloadDir + "/") == OldPrefix(engine, key) + "/" + f
            <==> engineDir == (if downloadDir + "/" <= path then downloadDir + "/" + engine else engine)
  {
    var path := FilePath(engineDir, key, f);
    var link := TrimPrefix(path, downloadDir + "/");
    var root, tail := downloadDir + "/", "/" + key + "/" + f;
    assert path == engineDir + tail && OldPrefix(engine, key) + "/" + f == engine + tail;
    if root <= path {
      SameTail(engineDir, root + engine, tail);
      assert root + engine + tail == root + (engine + tail);
    } else {
      SameTail(engineDir, engine, tail);
    }
  }

  lemma SameTail(x: string, y: string, tail: string)
    ensures x + tail == y + tail <==> x == y
  {
    if x + tail == y + tail {
      assert |x| == |y|;
      assert x == (x + tail)[..|x|] && y == (y + tail)[..|x|];
    }
  }

  /** Rewriting again changes nothing. */
  lemma RewriteTwice(link: string, engine: string, key: string, remote: string, base: string)
    requires GoodEngine(engine) && GoodKey(key)
    ensures var p, uri := OldPrefix(engine, key), UploadUri(remote, base, key);
            Rewritten(Rewritten(link, p, uri), p, uri) == Rewritten(link, p, uri)
  {
    var p, uri := OldPrefix(engine, key), UploadUri(remote, base, key);
    LikePrefix(link, p);
    if p <= link {
      var rest := RemotePath(remote, base, key) + link[|p|..];
      assert uri + link[|p|..] == "rclone://" + rest;
      RemoteIsNotOld(engine, key, rest);
      LikePrefix("rclone://" + rest, p);
    }
  }

  /** In the table: links of other jobs are left alone, and the statement is idempotent. */
  lemma RewriteLinksTable(s: Db, job: JobId, engine: string, key: string, remote: string, base: string)
    requires GoodEngine(engine) && GoodKey(key)
    ensures var a := RewriteLinks(job, OldPrefix(engine, key), UploadUri(remote, base, key));
            && Next(Next(s, a), a) == Next(s, a)
            && forall l :: l in s.links && (s.links[l].downloadId in s.downloads ==> s.downloads[s.links[l].downloadId].jobId != job)
                 ==> l in Next(s, a).links && Next(s, a).links[l] == s.links[l]
  {
    hide Rewritten, OldPrefix, UploadUri;
    forall l | l in s.links
      ensures var p, uri := OldPrefix(engine, key), UploadUri(remote, base, key);
              Rewritten(Rewritten(s.links[l].storageUri, p, uri), p, uri) == Rewritten(s.links[l].storageUri, p, uri)
    {
      RewriteTwice(s.links[l].storageUri, engine, key, remote, base);
    }
    var a := RewriteLinks(job, OldPrefix(engine, key), UploadUri(remote, base, key));
    assert Next(Next(s, a), a).links == Next(s, a).links;
  }
}
