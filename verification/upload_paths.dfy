/**
 * The file-path normalisers that turn the stored `ruta_archivo` of a document
 * into a path relative to the server's upload directory.
 *
 *  - `NormalizePath`: the `normalizePath` of src/server/index.js, whose text is
 *    repeated character for character in cambios-backend/endpoints-documentos-completos.js
 *    and cambios-backend/documentos.js (one function models all three);
 *  - `NormalizeFilePath`: the `normalizeFilePath` of src/server/fix-routes.js
 *    (same branches, but `null` for an empty input);
 *  - `NormalizeSeparators`: the separator-rewriting `normalizePath` of src/server/index.ts.
 *
 * JavaScript's `null`, `undefined` and `''` all take the `!filePath` branch; the
 * model represents all three by the empty string.
 */
module UploadPaths {
  import opened JsStrings
  import opened Wrappers

  const UploadsPrefix: string := "uploads/"

  /** `filePath.includes('C:\\') || filePath.includes('C:/')`. */
  predicate HasDriveMarker(p: string) {
    Includes(p, "C:\\") || Includes(p, "C:/")
  }

  /** `filePath.split('\\').pop() || filePath.split('/').pop()`. */
  function DriveFileName(p: string): string {
    var afterBackslash := Last(Split(p, '\\'));
    if afterBackslash != "" then afterBackslash else Last(Split(p, '/'))
  }

  /** `normalizePath` of src/server/index.js and its two copies. */
  function NormalizePath(filePath: string): (r: string)
    ensures filePath == "" <==> r == ""
    ensures filePath != "" ==> UploadsPrefix <= r
  {
    if filePath == "" then ""
    else if HasDriveMarker(filePath) then UploadsPrefix + DriveFileName(filePath)
    else if UploadsPrefix <= filePath then filePath
    else UploadsPrefix + filePath
  }

  /**
   * The drive-marker branch keeps the text after the LAST backslash; only when
   * that text is empty does it fall back to the text after the last `/`.
   */
  lemma DriveMarkerKeepsLastSegment(p: string)
    requires HasDriveMarker(p)
    ensures AfterLast(p, '\\') != "" ==> NormalizePath(p) == UploadsPrefix + AfterLast(p, '\\')
    ensures AfterLast(p, '\\') == "" ==> NormalizePath(p) == UploadsPrefix + AfterLast(p, '/')
  {
    SplitPopIsAfterLast(p, '\\');
    SplitPopIsAfterLast(p, '/');
  }

  /** A drive path written with forward slashes has no backslash, so its whole text is kept: `C:/a/b.pdf` becomes `uploads/C:/a/b.pdf`. */
  lemma ForwardSlashDrivePathKeptWhole(p: string)
    requires Includes(p, "C:/") && '\\' !in p
    ensures NormalizePath(p) == UploadsPrefix + p
  {
    SplitPopIsAfterLast(p, '\\');
  }

  /** A path already under `uploads/`, without a drive marker, is returned unchanged. */
  lemma UploadsPathUnchanged(p: string)
    requires UploadsPrefix <= p && !HasDriveMarker(p)
    ensures NormalizePath(p) == p
  {
  }

  /** Any other non-empty path only gains the prefix. */
  lemma OtherPathPrefixed(p: string)
    requires p != "" && !HasDriveMarker(p) && !(UploadsPrefix <= p)
    ensures NormalizePath(p) == UploadsPrefix + p
  {
  }

  /** Prefixing `uploads/` cannot create a drive marker: `uploads/` holds no `C`. */
  lemma {:induction false} PrefixAddsNoMarker(p: string, marker: string)
    requires |marker| > 0 && marker[0] == 'C'
    ensures Includes(UploadsPrefix + p, marker) ==> Includes(p, marker)
  {
    var q := UploadsPrefix + p;
    if Includes(q, marker) {
      var i :| 0 <= i <= |q| - |marker| && OccursAt(q, marker, i);
      assert q[i] == marker[0];
      assert i >= |UploadsPrefix|;
      assert q[i..i + |marker|] == p[i - |UploadsPrefix|..i - |UploadsPrefix| + |marker|];
      assert OccursAt(p, marker, i - |UploadsPrefix|);
    }
  }

  /** Without a drive marker, normalising twice is normalising once. */
  lemma {:induction false} NormalizePathIdempotent(p: string)
    requires !HasDriveMarker(p)
    ensures NormalizePath(NormalizePath(p)) == NormalizePath(p)
  {
    if p != "" && !(UploadsPrefix <= p) {
      PrefixAddsNoMarker(p, "C:\\");
      PrefixAddsNoMarker(p, "C:/");
      assert UploadsPrefix <= UploadsPrefix + p;
    }
  }

  /** With a drive marker the function is not idempotent: a forward-slash drive path gains the prefix twice. */
  lemma NormalizePathNotIdempotentOnDrivePath(p: string)
    requires Includes(p, "C:/") && '\\' !in p
    ensures NormalizePath(NormalizePath(p)) == UploadsPrefix + UploadsPrefix + p
  {
    ForwardSlashDrivePathKeptWhole(p);
    var q := UploadsPrefix + p;
    var i :| 0 <= i <= |p| - 3 && OccursAt(p, "C:/", i);
    assert q[i + 8..i + 11] == p[i..i + 3];
    assert OccursAt(q, "C:/", i + 8);
    assert '\\' !in q;
    ForwardSlashDrivePathKeptWhole(q);
  }

  /** `normalizeFilePath` of src/server/fix-routes.js. */
  function NormalizeFilePath(filePath: string): (r: Option<string>)
    ensures r == None <==> filePath == ""
    ensures r.Some? ==> r.value == NormalizePath(filePath) && UploadsPrefix <= r.value
  {
    if filePath == "" then None
    else if HasDriveMarker(filePath) then Some(UploadsPrefix + DriveFileName(filePath))
    else if UploadsPrefix <= filePath then Some(filePath)
    else Some(UploadsPrefix + filePath)
  }

  // ----- src/server/index.ts -----

  /** `filePath.replace(/\\/g, '/')`. */
  function BackslashesToSlashes(s: string): (r: string)
    ensures |r| == |s| && '\\' !in r
    ensures forall i :: 0 <= i < |s| ==> r[i] == (if s[i] == '\\' then '/' else s[i])
  {
    seq(|s|, i requires 0 <= i < |s| => if s[i] == '\\' then '/' else s[i])
  }

  /** No two consecutive `/`. */
  predicate NoDoubleSlash(s: string) {
    forall i :: 0 <= i < |s| - 1 ==> !(s[i] == '/' && s[i + 1] == '/')
  }

  /** `normalized.replace(/\/+/g, '/')`: every run of `/` becomes one `/`. */
  function CollapseSlashes(s: string): (r: string)
    ensures |r| <= |s|
    ensures |s| > 0 ==> |r| > 0 && r[0] == s[0]
    ensures NoDoubleSlash(r)
    ensures '\\' !in s ==> '\\' !in r
  {
    if |s| == 0 then ""
    else if s[0] == '/' && |s| > 1 && s[1] == '/' then CollapseSlashes(s[1..])
    else
      var rest := CollapseSlashes(s[1..]);
      assert forall i :: 1 <= i < |[s[0]] + rest| ==> ([s[0]] + rest)[i] == rest[i - 1];
      [s[0]] + rest
  }

  /** The `/` at `i` directly follows another `/`: the regex `/\/+/g` drops it. */
  predicate RepeatsSlash(s: string, i: nat)
    requires i < |s|
  {
    i > 0 && s[i - 1] == '/' && s[i] == '/'
  }

  /** The characters of `s` from `i` on, each kept unless it repeats the `/` before it. */
  function DropRepeatedSlashes(s: string, i: nat): (r: string)
    requires i <= |s|
    decreases |s| - i
  {
    if i == |s| then ""
    else (if RepeatsSlash(s, i) then "" else [s[i]]) + DropRepeatedSlashes(s, i + 1)
  }

  /** Collapsing runs drops exactly the slashes that follow a slash and keeps every other character in order. */
  lemma CollapseSlashesDropsRepeats(s: string)
    ensures CollapseSlashes(s) == DropRepeatedSlashes(s, 0)
  {
    if |s| > 0 {
      CollapseSuffix(s, 0);
    }
  }

  lemma {:induction false} CollapseSuffix(s: string, i: nat)
    requires i < |s|
    ensures CollapseSlashes(s[i..]) == [s[i]] + DropRepeatedSlashes(s, i + 1)
    decreases |s| - i
  {
    var t := s[i..];
    assert t[1..] == s[i + 1..];
    if i + 1 == |s| {
      assert CollapseSlashes(t) == [s[i]] + CollapseSlashes(t[1..]);
    } else {
      CollapseSuffix(s, i + 1);
      assert t[0] == s[i] && t[1] == s[i + 1];
      var rest := DropRepeatedSlashes(s, i + 2);
      if s[i] == '/' && s[i + 1] == '/' {
        assert CollapseSlashes(t) == CollapseSlashes(s[i + 1..]);
        assert DropRepeatedSlashes(s, i + 1) == rest;
      } else {
        assert CollapseSlashes(t) == [s[i]] + CollapseSlashes(s[i + 1..]);
        assert DropRepeatedSlashes(s, i + 1) == [s[i + 1]] + rest;
      }
    }
  }

  lemma {:induction false} CollapseSlashesIdentity(s: string)
    requires NoDoubleSlash(s)
    ensures CollapseSlashes(s) == s
  {
    if |s| > 0 {
      CollapseSlashesIdentity(s[1..]);
    }
  }

  /** `^[A-Z]:` on the rewritten path: an upper-case ASCII drive letter and a colon. */
  predicate StartsWithDrive(s: string) {
    |s| >= 2 && 'A' <= s[0] <= 'Z' && s[1] == ':'
  }

  /** The cut of src/server/index.ts: a path with a drive letter is cut at its first `uploads/`. */
  function CortarEnUploads(normalized: string): (r: string)
    ensures '\\' !in normalized ==> '\\' !in r
    ensures NoDoubleSlash(normalized) ==> NoDoubleSlash(r)
  {
    if StartsWithDrive(normalized) then
      var uploadsIndex := IndexOf(normalized, UploadsPrefix);
      if uploadsIndex != -1 then
        assert forall i :: uploadsIndex <= i < |normalized| ==> normalized[i] == normalized[uploadsIndex..][i - uploadsIndex];
        normalized[uploadsIndex..]
      else normalized
    else normalized
  }

  /** The `normalizePath` of src/server/index.ts. */
  function NormalizeSeparators(filePath: string): (r: string)
    ensures '\\' !in r
    ensures NoDoubleSlash(r)
  {
    CortarEnUploads(CollapseSlashes(BackslashesToSlashes(filePath)))
  }

  /**
   * A path with an upper-case drive letter that contains `uploads/` is cut to
   * the suffix at its FIRST `uploads/`; any other path is kept.
   */
  lemma CortarCasos(n: string)
    ensures if StartsWithDrive(n) && Includes(n, UploadsPrefix) then
        UploadsPrefix <= CortarEnUploads(n)
        && n == n[..|n| - |CortarEnUploads(n)|] + CortarEnUploads(n)
        && !Includes(n[..|n| - |CortarEnUploads(n)| + |UploadsPrefix| - 1], UploadsPrefix)
      else CortarEnUploads(n) == n
  {
    if StartsWithDrive(n) && Includes(n, UploadsPrefix) {
      var k := IndexOf(n, UploadsPrefix);
      assert |n| - |CortarEnUploads(n)| == k;
      CorteEnPrimera(n, UploadsPrefix, k);
    }
  }

  /**
   * A rewritten path with an upper-case drive letter that contains `uploads/`
   * is cut to the suffix at its FIRST `uploads/`; any other path is only rewritten.
   */
  lemma NormalizeSeparatorsCases(p: string)
    ensures var n := CollapseSlashes(BackslashesToSlashes(p));
      if StartsWithDrive(n) && Includes(n, UploadsPrefix) then
        UploadsPrefix <= NormalizeSeparators(p)
        && n == n[..|n| - |NormalizeSeparators(p)|] + NormalizeSeparators(p)
        && !Includes(n[..|n| - |NormalizeSeparators(p)| + |UploadsPrefix| - 1], UploadsPrefix)
      else NormalizeSeparators(p) == n
  {
    CortarCasos(CollapseSlashes(BackslashesToSlashes(p)));
  }

  /** The suffix from the first occurrence of `sub` starts with `sub`, and no occurrence ends before that one. */
  lemma CorteEnPrimera(n: string, sub: string, k: nat)
    requires |sub| >= 1 && OccursAt(n, sub, k)
    requires forall i :: 0 <= i < k ==> !OccursAt(n, sub, i)
    ensures sub <= n[k..]
    ensures n == n[..k] + n[k..]
    ensures !Includes(n[..k + |sub| - 1], sub)
  {
    assert n[k..][..|sub|] == n[k..k + |sub|];
    PrimeraAparicion(n, sub, k);
  }

  /** Before its first occurrence, no occurrence of `sub` ends. */
  lemma PrimeraAparicion(n: string, sub: string, k: nat)
    requires |sub| >= 1 && OccursAt(n, sub, k)
    requires forall i :: 0 <= i < k ==> !OccursAt(n, sub, i)
    ensures !Includes(n[..k + |sub| - 1], sub)
  {
    var m := n[..k + |sub| - 1];
    if Includes(m, sub) {
      var i :| 0 <= i <= |m| - |sub| && OccursAt(m, sub, i);
      assert m[i..i + |sub|] == n[i..i + |sub|];
      assert OccursAt(n, sub, i);
      assert false;
    }
  }

  /** A character that is neither separator. */
  predicate IsPathChar(c: char) {
    c != '/' && c != '\\'
  }

  lemma {:induction false} BackslashesToSlashesKeepsText(s: string)
    ensures KeepChars(BackslashesToSlashes(s), IsPathChar) == KeepChars(s, IsPathChar)
  {
    if |s| > 0 {
      assert BackslashesToSlashes(s)[1..] == BackslashesToSlashes(s[1..]);
      BackslashesToSlashesKeepsText(s[1..]);
    }
  }

  lemma {:induction false} CollapseSlashesKeepsText(s: string)
    ensures KeepChars(CollapseSlashes(s), IsPathChar) == KeepChars(s, IsPathChar)
  {
    if |s| > 0 {
      CollapseSlashesKeepsText(s[1..]);
      if !(s[0] == '/' && |s| > 1 && s[1] == '/') {
        var r := CollapseSlashes(s);
        assert r[1..] == CollapseSlashes(s[1..]);
      }
    }
  }

  /** Outside the drive-letter cut, the result differs from the input only in its separators. */
  lemma RewriteKeepsEverythingButSeparators(p: string)
    requires !(StartsWithDrive(CollapseSlashes(BackslashesToSlashes(p))) && Includes(CollapseSlashes(BackslashesToSlashes(p)), UploadsPrefix))
    ensures NormalizeSeparators(p) == DropRepeatedSlashes(BackslashesToSlashes(p), 0)
    ensures KeepChars(NormalizeSeparators(p), IsPathChar) == KeepChars(p, IsPathChar)
  {
    CollapseSlashesDropsRepeats(BackslashesToSlashes(p));
    BackslashesToSlashesKeepsText(p);
    CollapseSlashesKeepsText(BackslashesToSlashes(p));
  }

  /** Lower-case drive letters are not recognised: the path is only rewritten. */
  lemma LowerCaseDriveNotRecognised()
    ensures NormalizeSeparators("c:\\uploads\\a.pdf") == "c:/uploads/a.pdf"
  {
    var b := BackslashesToSlashes("c:\\uploads\\a.pdf");
    assert b == "c:/uploads/a.pdf";
    assert NoDoubleSlash(b);
    CollapseSlashesIdentity(b);
  }

  /** The index.ts normaliser is idempotent. */
  lemma NormalizeSeparatorsIdempotent(p: string)
    ensures NormalizeSeparators(NormalizeSeparators(p)) == NormalizeSeparators(p)
  {
    var r := NormalizeSeparators(p);
    assert BackslashesToSlashes(r) == r;
    CollapseSlashesIdentity(r);
    CortarIdempotente(CollapseSlashes(BackslashesToSlashes(p)));
  }

  /** A cut path starts with `uploads/`, which is no drive letter, so it is not cut again. */
  lemma CortarIdempotente(n: string)
    ensures CortarEnUploads(CortarEnUploads(n)) == CortarEnUploads(n)
  {
    if StartsWithDrive(n) && IndexOf(n, UploadsPrefix) != -1 {
      var k := IndexOf(n, UploadsPrefix);
      assert CortarEnUploads(n) == n[k..];
      assert n[k..k + |UploadsPrefix|] == UploadsPrefix;
      assert n[k] == UploadsPrefix[0] == 'u';
    }
  }
}
