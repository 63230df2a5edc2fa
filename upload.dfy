/** The upload side of the server: multer's `fileFilter`, the name a stored
    file gets, the URL it is served under, and the `/upload` endpoint. */
module Upload {
  import opened Wrappers
  import opened JsString

  /** The alternatives of `/jpeg|jpg|png|gif|mp3|wav|ogg|m4a/`, in order. */
  const AllowedTokens: seq<string> := ["jpeg", "jpg", "png", "gif", "mp3", "wav", "ogg", "m4a"]

  /** The one error the filter raises. */
  const RejectMessage: string := "Solo se permiten im\U{E1}genes y archivos de audio"

  /** The size limit handed to multer (10 MB); multer enforces it, not this code. */
  const MaxFileSize: nat := 10 * 1024 * 1024

  /** Some alternative of the pattern matches right at the start of `s`. */
  predicate MatchesHere(s: string) {
    exists k :: 0 <= k < |AllowedTokens| && IsPrefix(AllowedTokens[k], s)
  }

  /** `allowedTypes.test(s)`: the pattern has no anchors, so it is tried at
      every position from the left until one alternative matches. */
  predicate AllowedTest(s: string)
    decreases |s|
  {
    MatchesHere(s) || (s != [] && AllowedTest(s[1..]))
  }

  /** `s` contains one of the allowed tokens somewhere. */
  predicate HasAllowedToken(s: string) {
    exists k :: 0 <= k < |AllowedTokens| && Contains(s, AllowedTokens[k])
  }

  /** The unanchored test is substring search: it succeeds exactly when one
      of the tokens occurs in `s`. */
  lemma {:induction false} AllowedTestIsSubstring(s: string)
    ensures AllowedTest(s) <==> HasAllowedToken(s)
  {
    if s != [] {
      AllowedTestIsSubstring(s[1..]);
    }
    if AllowedTest(s) {
      if MatchesHere(s) {
        var k :| 0 <= k < |AllowedTokens| && IsPrefix(AllowedTokens[k], s);
        assert Contains(s, AllowedTokens[k]);
      } else {
        var k :| 0 <= k < |AllowedTokens| && Contains(s[1..], AllowedTokens[k]);
        assert Contains(s, AllowedTokens[k]);
      }
    }
    if HasAllowedToken(s) {
      var k :| 0 <= k < |AllowedTokens| && Contains(s, AllowedTokens[k]);
      if !IsPrefix(AllowedTokens[k], s) {
        assert s != [] && Contains(s[1..], AllowedTokens[k]);
        assert HasAllowedToken(s[1..]);
      }
    }
  }

  /** A string built around an allowed token passes the test. */
  lemma AllowedInContext(a: string, k: nat, b: string)
    requires k < |AllowedTokens|
    ensures AllowedTest(a + AllowedTokens[k] + b)
  {
    ContainsInContext(a, AllowedTokens[k], b);
    AllowedTestIsSubstring(a + AllowedTokens[k] + b);
  }

  /** `a` then `b` begin one of the tokens. */
  predicate TokenStart(a: char, b: char) {
    || (a == 'j' && b == 'p')
    || (a == 'p' && b == 'n')
    || (a == 'g' && b == 'i')
    || (a == 'm' && (b == 'p' || b == '4'))
    || (a == 'w' && b == 'a')
    || (a == 'o' && b == 'g')
  }

  /** A string in which no two neighbouring characters begin a token fails
      the test. */
  lemma {:induction false} NoTokenStartFails(s: string)
    requires forall i :: 0 <= i < |s| - 1 ==> !TokenStart(s[i], s[i + 1])
    ensures !AllowedTest(s)
    decreases |s|
  {
    assert forall k :: 0 <= k < |AllowedTokens| ==>
      |AllowedTokens[k]| >= 2 && TokenStart(AllowedTokens[k][0], AllowedTokens[k][1]);
    if s != [] {
      assert !MatchesHere(s) by {
        forall k | 0 <= k < |AllowedTokens| ensures !IsPrefix(AllowedTokens[k], s) {
          if |s| >= 2 {
            assert !TokenStart(s[0], s[1]);
          }
        }
      }
      forall i | 0 <= i < |s[1..]| - 1 ensures !TokenStart(s[1..][i], s[1..][i + 1]) {
        assert s[1..][i] == s[i + 1] && s[1..][i + 1] == s[i + 2];
      }
      NoTokenStartFails(s[1..]);
    }
  }

  /** `p` without the slashes it ends with. */
  function StripTrailingSlashes(p: string): (r: string)
    ensures IsPrefix(r, p)
    ensures r != [] ==> r[|r| - 1] != '/'
    ensures forall i :: |r| <= i < |p| ==> p[i] == '/'
    decreases |p|
  {
    if p != [] && p[|p| - 1] == '/' then StripTrailingSlashes(p[..|p| - 1]) else p
  }

  /** The last path component: what follows the last slash. */
  function LastComponent(p: string): (r: string)
    ensures IsSuffix(r, p)
    ensures forall i :: 0 <= i < |r| ==> r[i] != '/'
    ensures |r| < |p| ==> p[|p| - |r| - 1] == '/'
  {
    match LastIndexOf(p, '/')
    case None => p
    case Some(i) => p[i + 1..]
  }

  /** The base name `path.extname` inspects. */
  function Basename(p: string): string {
    LastComponent(StripTrailingSlashes(p))
  }

  /** Node's `path.extname` (POSIX): in the last component, once trailing
      slashes are dropped, the text from the last dot on; empty when that
      component has no dot, when its only dot leads it (`.bashrc`) or when
      it is `..`. */
  function Extname(p: string): string {
    BaseExtension(Basename(p))
  }

  /** The extension of a base name. */
  function BaseExtension(base: string): string {
    match LastIndexOf(base, '.')
    case None => ""
    case Some(d) => if d == 0 || base == ".." then "" else base[d..]
  }

  /** A non-empty extension is a dot followed by no other dot or slash, and
      it ends the path once trailing slashes are dropped. */
  lemma ExtnameShape(p: string)
    ensures var r := Extname(p);
      r != [] ==> && r[0] == '.'
                  && (forall i :: 1 <= i < |r| ==> r[i] != '.' && r[i] != '/')
                  && IsSuffix(r, StripTrailingSlashes(p))
  {
    var t := StripTrailingSlashes(p);
    var base := Basename(p);
    var r := Extname(p);
    BaseExtensionShape(base);
    if r != [] {
      assert base == t[|t| - |base|..];
      assert r == base[|base| - |r|..];
      assert r == t[|t| - |r|..];
    }
  }

  /** The extension of a slash-free name is a dot followed by neither dot
      nor slash, and it ends the name. */
  lemma BaseExtensionShape(base: string)
    requires forall i :: 0 <= i < |base| ==> base[i] != '/'
    ensures var r := BaseExtension(base);
      r != [] ==> && r[0] == '.'
                  && (forall i :: 1 <= i < |r| ==> r[i] != '.' && r[i] != '/')
                  && IsSuffix(r, base)
  {
    var r := BaseExtension(base);
    if r != [] {
      var d := LastIndexOf(base, '.').value;
      assert r == base[d..];
      assert forall i :: 1 <= i < |r| ==> r[i] == base[d + i];
    }
  }

  /** Only the last extension counts: when the last dot of a slash-free
      name is not its first character (and the name is not `..`), the
      extension runs from that dot to the end. */
  lemma ExtnameLastDot(name: string, d: nat)
    requires 0 < d < |name| && name[d] == '.' && name != ".."
    requires forall j :: 0 <= j < |name| ==> name[j] != '/'
    requires forall j :: d < j < |name| ==> name[j] != '.'
    ensures Extname(name) == name[d..]
  {
    assert StripTrailingSlashes(name) == name;
    assert Basename(name) == name;
    assert LastIndexOf(name, '.') == Some(d);
  }

  /** Exchanging the capitals of a name for small letters changes neither
      where its last slash sits nor where its last dot sits. */
  lemma LastIndexOfLower(s: string, c: char)
    requires !('A' <= c <= 'Z') && !('a' <= c <= 'z')
    ensures LastIndexOf(ToLower(s), c) == LastIndexOf(s, c)
    decreases |s|
  {
    if s != [] {
      ToLowerSlice(s, 0, |s| - 1);
      assert ToLower(s)[..|s| - 1] == ToLower(s[..|s| - 1]);
      LastIndexOfLower(s[..|s| - 1], c);
    }
  }

  lemma StripTrailingSlashesLower(p: string)
    ensures StripTrailingSlashes(ToLower(p)) == ToLower(StripTrailingSlashes(p))
    decreases |p|
  {
    if p != [] {
      ToLowerSlice(p, 0, |p| - 1);
      assert ToLower(p)[..|p| - 1] == ToLower(p[..|p| - 1]);
      StripTrailingSlashesLower(p[..|p| - 1]);
    }
  }

  /** The extension of the lower-cased name is the lower-cased extension. */
  lemma ExtnameLower(p: string)
    ensures Extname(ToLower(p)) == ToLower(Extname(p))
  {
    StripTrailingSlashesLower(p);
    LastComponentLower(StripTrailingSlashes(p));
    assert Basename(ToLower(p)) == ToLower(Basename(p));
    BaseExtensionLower(Basename(p));
  }

  lemma BaseExtensionLower(base: string)
    ensures BaseExtension(ToLower(base)) == ToLower(BaseExtension(base))
  {
    LastIndexOfLower(base, '.');
    var dot := LastIndexOf(base, '.');
    if dot.Some? {
      ToLowerSlice(base, dot.value, |base|);
      DotDotLower(base);
    }
  }

  lemma DotDotLower(b: string)
    ensures ToLower(b) == ".." <==> b == ".."
  {
    if |b| == 2 {
      assert ToLower(b)[0] == LowerChar(b[0]) && ToLower(b)[1] == LowerChar(b[1]);
      assert LowerChar(b[0]) == '.' <==> b[0] == '.';
      assert LowerChar(b[1]) == '.' <==> b[1] == '.';
    }
  }

  lemma LastComponentLower(t: string)
    ensures LastComponent(ToLower(t)) == ToLower(LastComponent(t))
  {
    LastIndexOfLower(t, '/');
    var slash := LastIndexOf(t, '/');
    if slash.Some? {
      ToLowerSlice(t, slash.value + 1, |t|);
    }
  }

  /** Which answer multer's `fileFilter` gives. */
  datatype Verdict = Accept | Reject(message: string)

  /** `fileFilter`: the lower-cased extension and the MIME type, which is not
      lower-cased, must both pass the unanchored test. */
  function FileFilter(originalName: string, mimetype: string): (r: Verdict)
    ensures r.Reject? ==> r.message == RejectMessage
  {
    var extname := AllowedTest(ToLower(Extname(originalName)));
    var mimeOk := AllowedTest(mimetype);
    if mimeOk && extname then Accept else Reject(RejectMessage)
  }

  /** A file is accepted exactly when its lower-cased extension contains an
      allowed token and so does its MIME type; otherwise it is refused with
      the one message. */
  lemma FileFilterAccepts(originalName: string, mimetype: string)
    ensures FileFilter(originalName, mimetype) == Accept <==>
      HasAllowedToken(ToLower(Extname(originalName))) && HasAllowedToken(mimetype)
    ensures FileFilter(originalName, mimetype) != Accept ==>
      FileFilter(originalName, mimetype) == Reject(RejectMessage)
  {
    AllowedTestIsSubstring(ToLower(Extname(originalName)));
    AllowedTestIsSubstring(mimetype);
  }

  /** The case of the name does not matter: the extension is lower-cased
      before it is checked. */
  lemma FileFilterIgnoresCase(originalName: string, mimetype: string)
    ensures FileFilter(ToLower(originalName), mimetype) == FileFilter(originalName, mimetype)
  {
    ExtnameLower(originalName);
    ToLowerIdempotent(Extname(originalName));
  }

  /** Substring matching accepts an extension that merely contains a token. */
  lemma TokenInsideExtensionAccepted()
    ensures FileFilter("x.jpgexe", "image/jpeg") == Accept
  {
    JpgexeExtension();
    JpgexePasses();
    ImageJpegPasses();
  }

  lemma JpgexeExtension()
    ensures Extname("x.jpgexe") == ".jpgexe"
  {
    var name := "x.jpgexe";
    ExtnameLastDot(name, 1);
    assert name[1..] == ".jpgexe";
  }

  lemma JpgexePasses()
    ensures AllowedTest(ToLower(".jpgexe"))
  {
    ToLowerNoCapitals(".jpgexe");
    AllowedInContext(".", 1, "exe");
    assert "." + AllowedTokens[1] + "exe" == ".jpgexe";
  }

  lemma ImageJpegPasses()
    ensures AllowedTest("image/jpeg")
  {
    AllowedInContext("image/", 0, "");
    assert "image/" + AllowedTokens[0] + "" == "image/jpeg";
  }

  /** `.exe` holds no token, so a name ending in it is refused whatever comes
      before it and whatever MIME type is declared. */
  lemma ExeRejected(name: string, mimetype: string)
    requires IsSuffix(".exe", name)
    ensures FileFilter(name, mimetype) == Reject(RejectMessage)
  {
    ExeFails();
    NoTokenStartFails("");
    ExeExtension(name);
  }

  lemma ExeFails()
    ensures !AllowedTest(ToLower(".exe"))
  {
    ToLowerNoCapitals(".exe");
    NoTokenStartFails(".exe");
  }

  /** The extension of a name ending in `.exe` is `.exe`, or empty when
      that `.exe` is all of its last component. */
  lemma ExeExtension(name: string)
    requires IsSuffix(".exe", name)
    ensures Extname(name) == "" || Extname(name) == ".exe"
  {
    var n := |name|;
    assert name[n - 4..] == ".exe";
    assert name[n - 4] == '.' && name[n - 3] == 'e' && name[n - 2] == 'x' && name[n - 1] == 'e';
    assert StripTrailingSlashes(name) == name;
    var base := Basename(name);
    assert base == name[n - |base|..];
    assert |base| >= 4;
    assert base[|base| - 4..] == name[n - 4..];
    ExeLastDot(base);
  }

  /** In a name ending in `.exe`, the last dot is the one of `.exe`. */
  lemma ExeLastDot(base: string)
    requires IsSuffix(".exe", base)
    ensures LastIndexOf(base, '.') == Some(|base| - 4)
  {
    var n := |base|;
    assert base[n - 4..] == ".exe";
    assert base[n - 4] == '.' && base[n - 3] == 'e' && base[n - 2] == 'x' && base[n - 1] == 'e';
  }

  /** The double-extension example: only `.exe` is looked at. */
  lemma DoubleExtensionRejected(mimetype: string)
    ensures FileFilter("invoice.mp3.exe", mimetype) == Reject(RejectMessage)
  {
    var name := "invoice.mp3.exe";
    assert name[|name| - 4..] == ".exe";
    ExeRejected(name, mimetype);
  }

  /** multer's `filename` callback: the upload time in milliseconds, a dash,
      and the name the client gave. */
  function StoredName(now: nat, originalName: string): string {
    DecimalString(now) + "-" + originalName
  }

  /** Splits a stored name back into its time and original name: the digits
      before the first dash, and everything after it. */
  function SplitStoredName(stored: string): Option<(nat, string)> {
    match IndexOf(stored, '-')
    case None => None
    case Some(i) =>
      if i > 0 && AllDigits(stored[..i]) then Some((ParseDecimal(stored[..i]), stored[i + 1..]))
      else None
  }

  /** The time and the original name can be read back from a stored name. */
  lemma StoredNameRoundTrip(now: nat, originalName: string)
    ensures SplitStoredName(StoredName(now, originalName)) == Some((now, originalName))
  {
    var digits := DecimalString(now);
    var stored := StoredName(now, originalName);
    assert stored[|digits|] == '-';
    assert forall j :: 0 <= j < |digits| ==> stored[j] != '-' by {
      forall j | 0 <= j < |digits| ensures stored[j] != '-' {
        assert stored[j] == digits[j];
      }
    }
    assert IndexOf(stored, '-') == Some(|digits|);
    assert stored[..|digits|] == digits;
    assert stored[|digits| + 1..] == originalName;
    DecimalRoundTrip(now);
  }

  /** So two uploads get the same stored name only when they arrive in the
      same millisecond with the same original name. */
  lemma StoredNameInjective(t1: nat, n1: string, t2: nat, n2: string)
    requires StoredName(t1, n1) == StoredName(t2, n2)
    ensures t1 == t2 && n1 == n2
  {
    StoredNameRoundTrip(t1, n1);
    StoredNameRoundTrip(t2, n2);
  }

  /** The `url` the upload endpoint returns for a stored name. */
  function FileUrl(filename: string): string {
    "/uploads/" + filename
  }

  /** A file's URL starts with `/uploads/`, ends with its original name, and
      the stored name can be read back from what follows the prefix. */
  lemma FileUrlShape(now: nat, originalName: string)
    ensures var url := FileUrl(StoredName(now, originalName));
      && IsPrefix("/uploads/", url)
      && IsSuffix(originalName, url)
      && SplitStoredName(url[|"/uploads/"|..]) == Some((now, originalName))
  {
    var stored := StoredName(now, originalName);
    var url := FileUrl(stored);
    assert url[|"/uploads/"|..] == stored;
    assert url[|url| - |originalName|..] == originalName;
    StoredNameRoundTrip(now, originalName);
  }

  /** The file part of an `/upload` request, as multer sees it. */
  datatype IncomingFile = IncomingFile(originalName: string, mimetype: string, size: nat)

  /** The JSON body of a successful upload. */
  datatype UploadInfo = UploadInfo(filename: string, originalName: string, mimetype: string, size: nat, url: string)

  /** What `/upload` ends with: the stored file's details, the 400 answer
      when the request carried no file, or the filter's error, which multer
      hands on to Express. */
  datatype UploadReply =
    | Uploaded(info: UploadInfo)
    | NoFile(error: string)
    | Refused(message: string)

  const NoFileError: string := "No se subi\U{F3} ning\U{FA}n archivo"

  /** The `/upload` route, with multer in front of it. */
  function HandleUpload(now: nat, file: Option<IncomingFile>): (r: UploadReply)
    ensures file.None? <==> r == NoFile(NoFileError)
    ensures r.NoFile? ==> file.None?
    ensures r.Refused? <==> file.Some? && FileFilter(file.value.originalName, file.value.mimetype) != Accept
    ensures r.Uploaded? <==> file.Some? && FileFilter(file.value.originalName, file.value.mimetype) == Accept
    ensures r.Refused? ==> r.message == RejectMessage
    ensures r.Uploaded? ==>
      && r.info.originalName == file.value.originalName
      && r.info.mimetype == file.value.mimetype
      && r.info.size == file.value.size
      && r.info.filename == StoredName(now, file.value.originalName)
      && SplitStoredName(r.info.filename) == Some((now, file.value.originalName))
      && r.info.url == FileUrl(r.info.filename)
  {
    match file
    case None => NoFile(NoFileError)
    case Some(f) =>
      match FileFilter(f.originalName, f.mimetype)
      case Reject(message) => Refused(message)
      case Accept =>
        var stored := StoredName(now, f.originalName);
        StoredNameRoundTrip(now, f.originalName);
        Uploaded(UploadInfo(stored, f.originalName, f.mimetype, f.size, FileUrl(stored)))
  }
}
