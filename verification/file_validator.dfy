/** Upload checks for media files: size, MIME type and file name (lib/file-validator.ts). */
module FileValidator {
  import opened Common
  import opened JsString

  /** 10 MiB. */
  const MaxFileSize: nat := 10 * 1024 * 1024
  const MaxNameLength: nat := 100

  const ImageTypes: seq<string> := ["image/jpeg", "image/jpg", "image/png", "image/gif", "image/webp"]
  const VideoTypes: seq<string> := ["video/mp4", "video/webm", "video/ogg"]
  const AudioTypes: seq<string> := ["audio/mp3", "audio/wav", "audio/ogg", "audio/mpeg"]

  /** The three properties of a browser `File` the validator looks at. */
  datatype FileInfo = FileInfo(name: string, size: nat, mimeType: string)

  /** `FileValidationResult`: valid with the sanitised name, or invalid with a message. */
  datatype Validation = Accepted(sanitizedName: string) | Rejected(error: string)

  const SizeError: string := "File size must be less than " + NatToString(MaxFileSize / 1024 / 1024) + "MB"

  function TypeError(allowedTypes: seq<string>, fileType: string): string {
    "Invalid " + fileType + " format. Allowed: " + Join(allowedTypes, ", ")
  }

  // ---- sanitizeFileName ----

  /** The characters `[a-zA-Z0-9.-]` that survive sanitising. */
  predicate SafeNameChar(c: char) {
    ('a' <= c <= 'z') || ('A' <= c <= 'Z') || ('0' <= c <= '9') || c == '.' || c == '-'
  }

  /** No two underscores in a row. */
  predicate NoDoubleUnderscore(s: string) {
    forall k :: 0 <= k < |s| - 1 ==> !(s[k] == '_' && s[k + 1] == '_')
  }

  /** `replace(/[^a-zA-Z0-9.-]/g, '_')`. */
  function ReplaceUnsafe(s: string): (r: string)
    ensures |r| == |s|
    ensures forall k :: 0 <= k < |s| ==> r[k] == (if SafeNameChar(s[k]) then s[k] else '_')
  {
    seq(|s|, k requires 0 <= k < |s| => if SafeNameChar(s[k]) then s[k] else '_')
  }

  predicate NotUnderscore(c: char) { c != '_' }

  /** `replace(/_{2,}/g, '_')`: every run of underscores becomes a single one. */
  function CollapseUnderscores(s: string): (r: string)
    ensures |r| <= |s|
    ensures forall c :: c in r ==> c in s
    ensures s != [] ==> r != [] && r[0] == s[0] && r[|r| - 1] == s[|s| - 1]
    ensures NoDoubleUnderscore(r)
  {
    if |s| >= 2 && s[0] == '_' && s[1] == '_' then CollapseUnderscores(s[1..])
    else if s == [] then []
    else [s[0]] + CollapseUnderscores(s[1..])
  }

  /** `n` underscores. */
  function Underscores(n: nat): (r: string)
    ensures |r| == n && forall c :: c in r ==> c == '_'
  {
    seq(n, _ => '_')
  }

  /** A run of underscores becomes one underscore. */
  lemma {:induction false} CollapseRun(n: nat)
    requires n >= 1
    ensures CollapseUnderscores(Underscores(n)) == "_"
  {
    if n >= 2 {
      assert Underscores(n)[1..] == Underscores(n - 1);
      CollapseRun(n - 1);
    }
  }

  /**
    The collapse works piece by piece: splitting the text anywhere except inside a run of
    underscores, the collapse of the whole is the collapse of each part. With `CollapseRun`
    and single characters this determines the result for every text.
  */
  lemma {:induction false} CollapseAppend(a: string, b: string)
    requires a == [] || b == [] || a[|a| - 1] != '_' || b[0] != '_'
    ensures CollapseUnderscores(a + b) == CollapseUnderscores(a) + CollapseUnderscores(b)
  {
    if a == [] {
      assert a + b == b;
    } else if |a| == 1 {
      assert (a + b)[1..] == b;
      assert a[1..] == [];
    } else {
      CollapseAppend(a[1..], b);
      CollapseAppendStep(a, b);
    }
  }

  /** The inductive step of `CollapseAppend`: the first character of `a` is kept or dropped alike on both sides. */
  lemma CollapseAppendStep(a: string, b: string)
    requires |a| >= 2
    requires CollapseUnderscores(a[1..] + b) == CollapseUnderscores(a[1..]) + CollapseUnderscores(b)
    ensures CollapseUnderscores(a + b) == CollapseUnderscores(a) + CollapseUnderscores(b)
  {
    ConsSplit(a, b, a[0]);
    assert (a + b)[1] == a[1];
    CollapseUnfold(a);
    CollapseUnfold(a + b);
    if !(a[0] == '_' && a[1] == '_') {
      AppendAssoc([a[0]], CollapseUnderscores(a[1..]), CollapseUnderscores(b));
    }
  }

  /** One step of `CollapseUnderscores` on a string of at least two characters. */
  lemma CollapseUnfold(s: string)
    requires |s| >= 2
    ensures CollapseUnderscores(s) == if s[0] == '_' && s[1] == '_' then CollapseUnderscores(s[1..])
                                      else [s[0]] + CollapseUnderscores(s[1..])
  {
  }

  /** The characters other than underscores are all kept, in order. */
  lemma {:induction false} CollapseKeepsOthers(s: string)
    ensures Filter(CollapseUnderscores(s), NotUnderscore) == Filter(s, NotUnderscore)
  {
    if s != [] {
      CollapseKeepsOthers(s[1..]);
      if !(|s| >= 2 && s[0] == '_' && s[1] == '_') {
        var r := CollapseUnderscores(s);
        assert r == [s[0]] + CollapseUnderscores(s[1..]);
        assert r[0] == s[0] && r[1..] == CollapseUnderscores(s[1..]);
      }
    }
  }

  /** Replacing makes underscores of exactly the unsafe characters, so the safe ones survive it in order. */
  lemma {:induction false} ReplaceKeepsSafe(s: string)
    ensures Filter(ReplaceUnsafe(s), NotUnderscore) == Filter(s, SafeNameChar)
  {
    if s != [] {
      assert ReplaceUnsafe(s)[1..] == ReplaceUnsafe(s[1..]);
      ReplaceKeepsSafe(s[1..]);
    }
  }


  /**
    `sanitizeFileName`: unsafe characters become underscores, runs of underscores collapse to
    one, and at most 100 characters are kept.
  */
  function SanitizeFileName(name: string): (r: string)
    ensures forall c :: c in r ==> SafeNameChar(c) || c == '_'
    ensures NoDoubleUnderscore(r)
    ensures |r| == Min(|CollapseUnderscores(ReplaceUnsafe(name))|, MaxNameLength) && |r| <= |name|
    ensures name != [] ==> r != []
    ensures Filter(r, NotUnderscore) <= Filter(name, SafeNameChar)
    ensures |name| <= MaxNameLength ==> Filter(r, NotUnderscore) == Filter(name, SafeNameChar)
  {
    var collapsed := CollapseUnderscores(ReplaceUnsafe(name));
    var r := Take(collapsed, MaxNameLength);
    CollapseKeepsOthers(ReplaceUnsafe(name));
    ReplaceKeepsSafe(name);
    FilterPrefix(collapsed, |r|, NotUnderscore);
    assert forall c :: c in r ==> c in collapsed by {
      forall c | c in r ensures c in collapsed {
        var k :| 0 <= k < |r| && r[k] == c;
        assert collapsed[k] == c;
      }
    }
    r
  }

  /** A name already made of safe characters, without double underscores and short enough, is kept. */
  lemma {:induction false} SanitizeFileNameFixpoint(name: string)
    requires forall c :: c in name ==> SafeNameChar(c) || c == '_'
    requires NoDoubleUnderscore(name) && |name| <= MaxNameLength
    ensures SanitizeFileName(name) == name
  {
    assert ReplaceUnsafe(name) == name;
    CollapseKeeps(name);
  }

  lemma {:induction false} CollapseKeeps(s: string)
    requires NoDoubleUnderscore(s)
    ensures CollapseUnderscores(s) == s
  {
    if s != [] {
      assert NoDoubleUnderscore(s[1..]) by {
        forall k | 0 <= k < |s[1..]| - 1 ensures !(s[1..][k] == '_' && s[1..][k + 1] == '_') {
          assert s[1..][k] == s[k + 1] && s[1..][k + 1] == s[k + 2];
        }
      }
      CollapseKeeps(s[1..]);
    }
  }

  /** Sanitising a sanitised name changes nothing. */
  lemma SanitizeFileNameIdempotent(name: string)
    ensures SanitizeFileName(SanitizeFileName(name)) == SanitizeFileName(name)
  {
    SanitizeFileNameFixpoint(SanitizeFileName(name));
  }

  // ---- isSuspiciousFileName ----

  /** The two kinds of regular expression in the suspicious-name list. */
  datatype NamePattern = EndsWith(suffix: string) | Contains(word: string)

  /** `/\.php$/i` … `/\.sh$/i`, `/script/i`, `/javascript/i`. */
  const SuspiciousPatterns: seq<NamePattern> := [
    EndsWith(".php"), EndsWith(".js"), EndsWith(".html"), EndsWith(".exe"),
    EndsWith(".bat"), EndsWith(".sh"), Contains("script"), Contains("javascript")]

  /** `pattern.test(name)` for a case-insensitive pattern. */
  predicate Matches(p: NamePattern, name: string) {
    match p
    case EndsWith(suffix) => EndsWithCI(name, suffix)
    case Contains(word) => IncludesCI(name, word)
  }

  /** `isSuspiciousFileName`: some pattern of the list matches. */
  predicate IsSuspicious(name: string) {
    exists p :: p in SuspiciousPatterns && Matches(p, name)
  }

  /**
    The suspicious names are exactly those with one of the six extensions (in any case) or
    containing "script" in any case; the `javascript` pattern adds nothing.
  */
  lemma SuspiciousIff(name: string)
    ensures IsSuspicious(name) <==>
      EndsWithCI(name, ".php") || EndsWithCI(name, ".js") || EndsWithCI(name, ".html")
      || EndsWithCI(name, ".exe") || EndsWithCI(name, ".bat") || EndsWithCI(name, ".sh")
      || IncludesCI(name, "script")
  {
    var ps := SuspiciousPatterns;
    if IncludesCI(name, "javascript") {
      var i: nat :| i <= |name| && HasAtCI(name, i, "javascript");
      assert HasAtCI(name, i + 4, "script") by {
        forall k | 0 <= k < 6 ensures Lower(name[i + 4 + k]) == "script"[k] {
          assert Lower(name[i + (4 + k)]) == "javascript"[4 + k];
        }
      }
    }
    if IsSuspicious(name) {
      var p :| p in ps && Matches(p, name);
      assert p == ps[0] || p == ps[1] || p == ps[2] || p == ps[3] || p == ps[4] || p == ps[5]
        || p == ps[6] || p == ps[7];
    }
    if IncludesCI(name, "script") {
      assert Matches(ps[6], name);
    }
    if EndsWithCI(name, ".php") { assert Matches(ps[0], name); }
    if EndsWithCI(name, ".js") { assert Matches(ps[1], name); }
    if EndsWithCI(name, ".html") { assert Matches(ps[2], name); }
    if EndsWithCI(name, ".exe") { assert Matches(ps[3], name); }
    if EndsWithCI(name, ".bat") { assert Matches(ps[4], name); }
    if EndsWithCI(name, ".sh") { assert Matches(ps[5], name); }
  }

  // ---- validateFile ----

  /**
    `validateFile`: the size is checked first, then the MIME type against the allowed list,
    then the sanitised name against the suspicious patterns; an accepted file carries its
    sanitised name.
  */
  function ValidateFile(file: FileInfo, allowedTypes: seq<string>, fileType: string): (r: Validation)
    ensures r.Accepted? <==>
      file.size <= MaxFileSize && file.mimeType in allowedTypes
      && !IsSuspicious(SanitizeFileName(file.name))
    ensures r.Accepted? ==> r.sanitizedName == SanitizeFileName(file.name)
    ensures file.size > MaxFileSize ==> r == Rejected(SizeError)
    ensures file.size <= MaxFileSize && file.mimeType !in allowedTypes
            ==> r == Rejected(TypeError(allowedTypes, fileType))
    ensures (file.size <= MaxFileSize && file.mimeType in allowedTypes
             && IsSuspicious(SanitizeFileName(file.name))) ==> r == Rejected("Invalid file name")
  {
    if file.size > MaxFileSize then Rejected(SizeError)
    else if file.mimeType !in allowedTypes then Rejected(TypeError(allowedTypes, fileType))
    else
      var sanitizedName := SanitizeFileName(file.name);
      if IsSuspicious(sanitizedName) then Rejected("Invalid file name")
      else Accepted(sanitizedName)
  }

  function ValidateImage(file: FileInfo): Validation { ValidateFile(file, ImageTypes, "image") }
  function ValidateVideo(file: FileInfo): Validation { ValidateFile(file, VideoTypes, "video") }
  function ValidateAudio(file: FileInfo): Validation { ValidateFile(file, AudioTypes, "audio") }

  /** An accepted upload's stored name is safe, short, and not suspicious. */
  lemma AcceptedNameSafe(file: FileInfo, allowedTypes: seq<string>, fileType: string)
    requires ValidateFile(file, allowedTypes, fileType).Accepted?
    ensures var n := ValidateFile(file, allowedTypes, fileType).sanitizedName;
      && (forall c :: c in n ==> SafeNameChar(c) || c == '_')
      && |n| <= MaxNameLength
      && !EndsWithCI(n, ".php") && !EndsWithCI(n, ".js") && !EndsWithCI(n, ".html")
      && !EndsWithCI(n, ".exe") && !EndsWithCI(n, ".bat") && !EndsWithCI(n, ".sh")
      && !IncludesCI(n, "script")
  {
    SuspiciousIff(SanitizeFileName(file.name));
  }
}
