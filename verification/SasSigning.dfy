/** Signing a SAS (azfile/sas_service.go, azfile/zc_sas_account.go) and checking it as the service
    does, from the query alone. HMAC-SHA256 with base64 is a function of the string to sign. */
module SasSigning {
  import opened Text
  import opened Query
  import opened SasFormats
  import opened SasParams
  import opened Permissions
  import FileUrl

  const SAS_VERSION: Text := "2018-03-28"

  datatype Credential = Credential(account: Text, hmac: Text -> Text)

  datatype SasError = NoCredential | InvalidPermission | MissingField

  datatype FileValues = FileValues(
    version: Text,
    protocol: Text,
    start: Time,
    expiry: Time,
    permissions: Text,
    ipRange: IpRange,
    identifier: Text,
    shareName: Text,
    filePath: Text,
    cacheControl: Text,
    contentDisposition: Text,
    contentEncoding: Text,
    contentLanguage: Text,
    contentType: Text)

  datatype AccountValues = AccountValues(
    version: Text,
    protocol: Text,
    start: Time,
    expiry: Time,
    permissions: Text,
    ipRange: IpRange,
    services: Text,
    resourceTypes: Text)

  predicate ValidFile(v: FileValues) {
    ValidTime(v.start) && ValidTime(v.expiry) && ValidIpRange(v.ipRange)
  }

  predicate ValidAccount(v: AccountValues) {
    ValidTime(v.start) && ValidTime(v.expiry) && ValidIpRange(v.ipRange)
  }

  // ----- The resource -----

  function Slashes(path: Text): Text {
    seq(|path|, i requires 0 <= i < |path| => if path[i] == '\\' then '/' else path[i])
  }

  /** getCanonicalName. */
  function CanonicalName(account: Text, shareName: Text, filePath: Text): Text {
    var share := "/file/" + account + SLASH + shareName;
    if filePath == "" then share else
      var path := Slashes(filePath);
      share + SLASH + (if path[0] == '/' then path[1..] else path)
  }

  /** The path may be written with either slash, and with or without one in front. */
  lemma SameResource(account: Text, shareName: Text, filePath: Text)
    requires filePath != "" && filePath[0] != '/' && filePath[0] != '\\'
    ensures CanonicalName(account, shareName, SLASH + filePath) == CanonicalName(account, shareName, filePath)
    ensures CanonicalName(account, shareName, Slashes(filePath)) == CanonicalName(account, shareName, filePath)
    ensures CanonicalName(account, shareName, filePath) == CanonicalName(account, shareName, "") + SLASH +
            Slashes(filePath)
  {
    assert Slashes(SLASH + filePath)[1..] == Slashes(filePath);
    assert Slashes(Slashes(filePath)) == Slashes(filePath);
  }

  predicate SlashFree(name: Text) {
    name != "" && '/' !in name
  }

  /** The path with forward slashes, and without one in front if there was one. */
  ghost predicate IsPathOf(rest: Text, filePath: Text) {
    exists t: Text ::
      && |t| == |filePath| && (forall i :: 0 <= i < |t| ==> t[i] == if filePath[i] == '\\' then '/' else filePath[i])
      && if t != "" && t[0] == '/' then t[1..] == rest else t == rest
  }

  /** After "/file" the name reads as the path, on a host without a name, of that account, share and file.
      It ends with a slash if there is a path of which nothing is left. */
  ghost predicate NamesFile(name: Text, account: Text, shareName: Text, filePath: Text) {
    && "/file/" <= name
    && var read := FileUrl.ParsePath(true, name[5..]);
       && read.account == account && read.share == shareName && IsPathOf(read.rest, filePath)
       && (read.rest == "" ==> (filePath != "" <==> name[|name| - 1] == '/'))
  }

  function Rest(filePath: Text): Text {
    var path := Slashes(filePath);
    if path != "" && path[0] == '/' then path[1..] else path
  }

  lemma RestIsPath(rest: Text, filePath: Text)
    ensures IsPathOf(rest, filePath) <==> rest == Rest(filePath)
  {
    var path := Slashes(filePath);
    assert |path| == |filePath|;
    if t: Text :| |t| == |filePath|
                  && (forall i :: 0 <= i < |t| ==> t[i] == if filePath[i] == '\\' then '/' else filePath[i])
                  && if t != "" && t[0] == '/' then t[1..] == rest else t == rest
    {
      assert t == path;
    }
  }

  const FILE: Text := "/file"

  /** The name without its first part and without the account. */
  function InAccount(shareName: Text, filePath: Text): Text {
    if filePath == "" then shareName else shareName + SLASH + Rest(filePath)
  }

  lemma NameParts(account: Text, shareName: Text, filePath: Text)
    ensures CanonicalName(account, shareName, filePath) ==
            FILE + FileUrl.Absolute(account, InAccount(shareName, filePath))
  {
    var share := "/file/" + account + SLASH + shareName;
    assert share == FILE + FileUrl.Absolute(account, shareName);
    if filePath != "" {
      assert |Slashes(filePath)| == |filePath|;
      var rest := Rest(filePath);
      hide Slashes, Rest;
      assert FileUrl.Absolute(account, shareName + SLASH + rest) == FileUrl.Absolute(account, shareName) + SLASH + rest;
    }
  }

  lemma NameIsCanonical(account: Text, shareName: Text, filePath: Text)
    requires SlashFree(account) && SlashFree(shareName)
    ensures NamesFile(FILE + FileUrl.Absolute(account, InAccount(shareName, filePath)), account, shareName, filePath)
  {
    var q, rest := InAccount(shareName, filePath), if filePath == "" then "" else Rest(filePath);
    var path := FileUrl.Absolute(account, q);
    var name := FILE + path;
    NameEnds(account, q);
    RestIsPath(rest, filePath);
    hide Rest, FileUrl.Absolute, FileUrl.ParsePath, FileUrl.SplitShare, IsPathOf, IndexOf;
    FileUrl.ParseAbsolute(account, q);
    FileUrl.SplitShareMeans(account, shareName, q, rest);
    assert filePath == "" ==> q[|q| - 1] in shareName;
  }

  lemma NameEnds(account: Text, q: Text)
    requires q != ""
    ensures var path := FileUrl.Absolute(account, q);
            var name := FILE + path;
            "/file/" <= name && name[5..] == path && name[|name| - 1] == q[|q| - 1]
  {
    var path := FileUrl.Absolute(account, q);
    assert path[0] == '/' && path[|path| - 1] == q[|q| - 1];
    hide FileUrl.Absolute;
  }

  lemma NameIsMade(name: Text, account: Text, shareName: Text, filePath: Text)
    requires SlashFree(account) && SlashFree(shareName) && NamesFile(name, account, shareName, filePath)
    ensures name == FILE + FileUrl.Absolute(account, InAccount(shareName, filePath))
  {
    var path := name[5..];
    var rest := FileUrl.ParsePath(true, path).rest;
    assert name == FILE + path && path[0] == '/';
    RestIsPath(rest, filePath);
    assert filePath == "" ==> Rest(filePath) == "";
    hide Rest, IsPathOf;
    var q := FileUrl.AbsoluteIsMade(path, account);
    FileUrl.SplitShareMeans(account, shareName, q, rest);
    hide FileUrl.ParsePath, FileUrl.SplitShare, IndexOf;
    assert name[|name| - 1] == q[|q| - 1];
  }

  /** Of an account and a share with slash-free names, the canonical name is the one that names the file. */
  lemma NameMeans(name: Text, account: Text, shareName: Text, filePath: Text)
    requires SlashFree(account) && SlashFree(shareName)
    ensures NamesFile(name, account, shareName, filePath) <==> name == CanonicalName(account, shareName, filePath)
  {
    NameParts(account, shareName, filePath);
    NameIsCanonical(account, shareName, filePath);
    hide NamesFile, CanonicalName, InAccount, FileUrl.Absolute;
    if NamesFile(name, account, shareName, filePath) {
      NameIsMade(name, account, shareName, filePath);
    }
  }

  // ----- What the client signs -----

  function Defaulted(version: Text): Text {
    if version == "" then SAS_VERSION else version
  }

  /** The fields of the string to sign, one a line. */
  function FileFields(account: Text, v: FileValues): seq<Text>
    requires ValidFile(v)
  {
    [v.permissions, FormatForSigning(v.start), FormatForSigning(v.expiry),
     CanonicalName(account, v.shareName, v.filePath), v.identifier, FormatIpRange(v.ipRange), v.protocol, v.version,
     v.cacheControl, v.contentDisposition, v.contentEncoding, v.contentLanguage, v.contentType]
  }

  function AccountFields(account: Text, v: AccountValues): seq<Text>
    requires ValidAccount(v)
  {
    [account, v.permissions, v.services, v.resourceTypes, FormatForSigning(v.start), FormatForSigning(v.expiry),
     FormatIpRange(v.ipRange), v.protocol, v.version, ""]
  }

  function FileLetters(v: FileValues): Text {
    if v.filePath == "" then SHARE_LETTERS else FILE_LETTERS
  }

  function FileResource(v: FileValues): Text {
    if v.filePath == "" then "s" else "f"
  }

  function FileNormal(v: FileValues): FileValues {
    v.(permissions := InOrder(FileLetters(v), LettersOf(v.permissions)), version := Defaulted(v.version))
  }

  function FileParams(v: FileValues, signature: Text): SasQueryParameters {
    SasQueryParameters(v.version, "", "", v.protocol, SasTime(v.start, NoLayout), SasTime(v.expiry, NoLayout),
                       v.ipRange,
                       v.identifier, FileResource(v), v.permissions, signature,
                       v.cacheControl, v.contentDisposition, v.contentEncoding, v.contentLanguage, v.contentType)
  }

  function FileSas(v: FileValues, cred: Option<Credential>): Result<SasQueryParameters, SasError>
    requires ValidFile(v)
  {
    if cred.None? then Err(NoCredential)
    else if !(LettersOf(v.permissions) <= LettersOf(FileLetters(v))) then Err(InvalidPermission)
    else
      var w := FileNormal(v);
      Ok(FileParams(w, cred.value.hmac(Join(FileFields(cred.value.account, w), NEWLINE))))
  }

  /** FileSASSignatureValues.NewSASQueryParameters. */
  method NewFileSas(v: FileValues, cred: Option<Credential>) returns (r: Result<SasQueryParameters, SasError>)
    requires ValidFile(v)
    ensures r == FileSas(v, cred)
  {
    if cred.None? {
      return Err(NoCredential);
    }
    hide InOrder, LettersOf, FormatIpRange, FormatTime;
    var w, resource := v, "s";
    if w.filePath == "" {
      var perms := new ShareSasPermissions();
      var ok := perms.Parse(w.permissions);
      if !ok {
        return Err(InvalidPermission);
      }
      var s := perms.String();
      w := w.(permissions := s);
    } else {
      resource := "f";
      var perms := new FileSasPermissions();
      var ok := perms.Parse(w.permissions);
      if !ok {
        return Err(InvalidPermission);
      }
      var s := perms.String();
      w := w.(permissions := s);
    }
    if w.version == "" {
      w := w.(version := SAS_VERSION);
    }
    assert w == FileNormal(v) && resource == FileResource(w);
    var startTime, expiryTime := FormatForSigning(w.start), FormatForSigning(w.expiry);
    var stringToSign := Join([w.permissions, startTime, expiryTime,
                              CanonicalName(cred.value.account, w.shareName, w.filePath),
                              w.identifier, FormatIpRange(w.ipRange), w.protocol, w.version,
                              w.cacheControl, w.contentDisposition, w.contentEncoding, w.contentLanguage,
                                w.contentType], NEWLINE);
    var signature := cred.value.hmac(stringToSign);
    return Ok(SasQueryParameters(w.version, "", "", w.protocol, SasTime(w.start, NoLayout),
                                 SasTime(w.expiry, NoLayout), w.ipRange,
                                 w.identifier, resource, w.permissions, signature,
                                 w.cacheControl, w.contentDisposition, w.contentEncoding, w.contentLanguage,
                                   w.contentType));
  }

  function AccountNormal(v: AccountValues): AccountValues {
    v.(permissions := InOrder(ACCOUNT_LETTERS, LettersOf(v.permissions)), version := Defaulted(v.version))
  }

  function AccountParams(v: AccountValues, signature: Text): SasQueryParameters {
    EMPTY.(version := v.version, services := v.services, resourceTypes := v.resourceTypes, protocol := v.protocol,
           start := SasTime(v.start, NoLayout), expiry := SasTime(v.expiry, NoLayout), ipRange := v.ipRange,
           permissions := v.permissions, signature := signature)
  }

  function AccountSas(v: AccountValues, cred: Credential): Result<SasQueryParameters, SasError>
    requires ValidAccount(v)
  {
    if v.expiry.IsZero() || v.permissions == "" || v.resourceTypes == "" || v.services == "" then Err(MissingField)
    else if !(LettersOf(v.permissions) <= LettersOf(ACCOUNT_LETTERS)) then Err(InvalidPermission)
    else
      var w := AccountNormal(v);
      Ok(AccountParams(w, cred.hmac(Join(AccountFields(cred.account, w), NEWLINE))))
  }

  /** AccountSASSignatureValues.NewSASQueryParameters. */
  method NewAccountSas(v: AccountValues, cred: Credential) returns (r: Result<SasQueryParameters, SasError>)
    requires ValidAccount(v)
    ensures r == AccountSas(v, cred)
  {
    if v.expiry.IsZero() || v.permissions == "" || v.resourceTypes == "" || v.services == "" {
      return Err(MissingField);
    }
    hide InOrder, LettersOf, FormatIpRange, FormatTime;
    var w := v;
    if w.version == "" {
      w := w.(version := SAS_VERSION);
    }
    var perms := new AccountSasPermissions();
    var ok := perms.Parse(w.permissions);
    if !ok {
      return Err(InvalidPermission);
    }
    var s := perms.String();
    w := w.(permissions := s);
    assert w == AccountNormal(v);
    var startTime, expiryTime := FormatForSigning(w.start), FormatForSigning(w.expiry);
    var stringToSign := Join([cred.account, w.permissions, w.services, w.resourceTypes, startTime, expiryTime,
                              FormatIpRange(w.ipRange), w.protocol, w.version, ""], NEWLINE);
    var signature := cred.hmac(stringToSign);
    return Ok(SasQueryParameters(w.version, w.services, w.resourceTypes, w.protocol,
                                 SasTime(w.start, NoLayout), SasTime(w.expiry, NoLayout), w.ipRange,
                                 "", "", w.permissions, signature, "", "", "", "", ""));
  }

  // ----- What the service checks -----

  /** The value a request's query has under a name; empty if it has none. */
  function Received(values: Values, k: Key): Text
    requires Name(k) in values ==> values[Name(k)] != []
  {
    if Name(k) in values then values[Name(k)][0] else ""
  }

  /** The lines of a share or file SAS's string to sign, taken from the query. */
  ghost function FileReceived(values: Values, canonicalName: Text): seq<Text>
    requires NoEmptyLists(values)
  {
    [Received(values, Sp), Received(values, St), Received(values, Se), canonicalName, Received(values, Si),
     Received(values, Sip), Received(values, Spr), Received(values, Sv), Received(values, Rscc), Received(values, Rscd),
     Received(values, Rsce), Received(values, Rscl), Received(values, Rsct)]
  }

  ghost function AccountReceived(values: Values, account: Text): seq<Text>
    requires NoEmptyLists(values)
  {
    [account, Received(values, Sp), Received(values, Ss), Received(values, Srt), Received(values, St),
     Received(values, Se),
     Received(values, Sip), Received(values, Spr), Received(values, Sv), ""]
  }

  lemma ReceivedText(p: SasQueryParameters, k: Key)
    requires ValidParams(p)
    ensures Received(ParseValues(EncodeSas(p)), k) == FieldText(p, k)
  {
    FirstValuesLists(p, |KEYS|);
    hide FieldText, Name;
    ParseEncode(ToValues(p));
    ToValuesAt(p, k);
  }

  lemma SigningText(t: Time)
    requires ValidTime(t)
    ensures TimeText(SasTime(t, NoLayout)) == FormatForSigning(t)
  {
  }

  /** The same lines, taken from the parameters. */
  ghost function FilePrinted(p: SasQueryParameters, canonicalName: Text): seq<Text>
    requires ValidParams(p)
  {
    [FieldText(p, Sp), FieldText(p, St), FieldText(p, Se), canonicalName, FieldText(p, Si),
     FieldText(p, Sip), FieldText(p, Spr), FieldText(p, Sv), FieldText(p, Rscc), FieldText(p, Rscd),
     FieldText(p, Rsce), FieldText(p, Rscl), FieldText(p, Rsct)]
  }

  ghost function AccountPrinted(p: SasQueryParameters, account: Text): seq<Text>
    requires ValidParams(p)
  {
    [account, FieldText(p, Sp), FieldText(p, Ss), FieldText(p, Srt), FieldText(p, St), FieldText(p, Se),
     FieldText(p, Sip), FieldText(p, Spr), FieldText(p, Sv), ""]
  }

  lemma PrintedReceived(p: SasQueryParameters, name: Text)
    requires ValidParams(p)
    ensures FileReceived(ParseValues(EncodeSas(p)), name) == FilePrinted(p, name)
    ensures AccountReceived(ParseValues(EncodeSas(p)), name) == AccountPrinted(p, name)
  {
    hide ParseValues, EncodeSas, Received, FieldText, ValidParams;
    forall k
      ensures Received(ParseValues(EncodeSas(p)), k) == FieldText(p, k)
    {
      ReceivedText(p, k);
    }
  }

  lemma SignatureReceived(p: SasQueryParameters)
    requires ValidParams(p)
    ensures Received(ParseValues(EncodeSas(p)), Sig) == p.signature &&
            Received(ParseValues(EncodeSas(p)), Sr) == p.resource
  {
    hide ParseValues, EncodeSas, Received;
    ReceivedText(p, Sig);
    ReceivedText(p, Sr);
  }

  lemma FileFieldsPrinted(v: FileValues, account: Text, signature: Text)
    requires ValidFile(v)
    ensures var p := FileParams(v, signature);
            ValidParams(p) && FilePrinted(p, CanonicalName(account, v.shareName, v.filePath)) == FileFields(account, v)
  {
    SigningText(v.start);
    SigningText(v.expiry);
    hide CanonicalName, FormatIpRange, TimeText, FormatForSigning;
  }

  lemma AccountFieldsPrinted(v: AccountValues, account: Text, signature: Text)
    requires ValidAccount(v)
    ensures var p := AccountParams(v, signature);
            ValidParams(p) && AccountPrinted(p, account) == AccountFields(account, v)
  {
    SigningText(v.start);
    SigningText(v.expiry);
    hide FormatIpRange, TimeText, FormatForSigning;
  }

  lemma FileSasReceived(v: FileValues, cred: Credential, p: SasQueryParameters)
    requires ValidFile(v) && FileSas(v, Some(cred)) == Ok(p)
    ensures ValidParams(p)
    ensures var values := ParseValues(EncodeSas(p));
            var received := FileReceived(values, CanonicalName(cred.account, v.shareName, v.filePath));
            && received == FileFields(cred.account, FileNormal(v))
            && Received(values, Sig) == cred.hmac(Join(received, NEWLINE))
            && Received(values, Sr) == FileResource(v)
            && Received(values, Sv) == if v.version == "" then "2018-03-28" else v.version
  {
    hide ParseValues, EncodeSas, InOrder, LettersOf, CanonicalName, FileReceived, FileFields, FilePrinted, Received,
         ValidParams;
    var w := FileNormal(v);
    FileFieldsPrinted(w, cred.account, p.signature);
    SignatureReceived(p);
    PrintedReceived(p, CanonicalName(cred.account, v.shareName, v.filePath));
  }

  /** The service, which takes the file's name from the path it is asked for, rebuilds from the query
      exactly what was signed, and so finds the signature right. */
  lemma FileSasVerifies(v: FileValues, cred: Credential, p: SasQueryParameters, name: Text)
    requires ValidFile(v) && FileSas(v, Some(cred)) == Ok(p)
    requires SlashFree(cred.account) && SlashFree(v.shareName)
    requires NamesFile(name, cred.account, v.shareName, v.filePath)
    ensures ValidParams(p)
    ensures var values := ParseValues(EncodeSas(p));
            var received := FileReceived(values, name);
            && received == FileFields(cred.account, FileNormal(v))
            && Received(values, Sig) == cred.hmac(Join(received, NEWLINE))
            && Received(values, Sr) == if v.filePath == "" then "s" else "f"
  {
    NameMeans(name, cred.account, v.shareName, v.filePath);
    FileSasReceived(v, cred, p);
    hide FileReceived, Received, ParseValues, EncodeSas, CanonicalName, NamesFile, FileFields, FileNormal, ValidParams;
  }

  lemma AccountSasVerifies(v: AccountValues, cred: Credential, p: SasQueryParameters)
    requires ValidAccount(v) && AccountSas(v, cred) == Ok(p)
    ensures ValidParams(p)
    ensures var values := ParseValues(EncodeSas(p));
            && AccountReceived(values, cred.account) == AccountFields(cred.account, AccountNormal(v))
            && Received(values, Sig) == cred.hmac(Join(AccountReceived(values, cred.account), NEWLINE))
  {
    hide ParseValues, EncodeSas, InOrder, LettersOf, AccountReceived, AccountFields, AccountPrinted, Received,
         ValidParams;
    var w := AccountNormal(v);
    AccountFieldsPrinted(w, cred.account, p.signature);
    SignatureReceived(p);
    PrintedReceived(p, cred.account);
  }

  // ----- What the string to sign depends on -----

  lemma SameLetters(alphabet: Text, s: Text, t: Text)
    requires LettersOf(s) <= LettersOf(alphabet) && LettersOf(t) <= LettersOf(alphabet)
    ensures InOrder(alphabet, LettersOf(s)) == InOrder(alphabet, LettersOf(t)) <==> LettersOf(s) == LettersOf(t)
  {
    InOrderLetters(alphabet, LettersOf(s));
    InOrderLetters(alphabet, LettersOf(t));
    hide InOrder, LettersOf;
    assert LettersOf(s) * LettersOf(alphabet) == LettersOf(s) && LettersOf(t) * LettersOf(alphabet) == LettersOf(t);
  }

  /** Two permission strings give the same SAS if and only if they have the same letters, however
      often and in whatever order. */
  lemma FilePermissionsAsSets(v: FileValues, permissions: Text, cred: Credential)
    requires ValidFile(v)
    requires LettersOf(v.permissions) <= LettersOf(FileLetters(v)) &&
             LettersOf(permissions) <= LettersOf(FileLetters(v))
    ensures FileSas(v, Some(cred)) == FileSas(v.(permissions := permissions), Some(cred)) <==>
            LettersOf(v.permissions) == LettersOf(permissions)
  {
    SameLetters(FileLetters(v), v.permissions, permissions);
    hide InOrder, LettersOf, FileFields, Join;
    var w := v.(permissions := permissions);
    assert FileSas(v, Some(cred)) == FileSas(w, Some(cred)) ==> FileNormal(v).permissions == FileNormal(w).permissions;
    if LettersOf(v.permissions) == LettersOf(permissions) {
      assert FileNormal(v) == FileNormal(w);
    }
  }

  lemma AccountPermissionsAsSets(v: AccountValues, permissions: Text, cred: Credential)
    requires ValidAccount(v) && AccountSas(v, cred).Ok? && AccountSas(v.(permissions := permissions), cred).Ok?
    ensures AccountSas(v, cred) == AccountSas(v.(permissions := permissions), cred) <==>
            LettersOf(v.permissions) == LettersOf(permissions)
  {
    SameLetters(ACCOUNT_LETTERS, v.permissions, permissions);
    hide InOrder, LettersOf, AccountFields, Join;
    var w := v.(permissions := permissions);
    assert AccountSas(v, cred) == AccountSas(w, cred) ==> AccountNormal(v).permissions == AccountNormal(w).permissions;
    if LettersOf(v.permissions) == LettersOf(permissions) {
      assert AccountNormal(v) == AccountNormal(w);
    }
  }

  ghost predicate OneLineEach(fields: seq<Text>) {
    forall f :: f in fields ==> '\n' !in f
  }

  lemma FirstLine(head: Text, rest: Text, head': Text, rest': Text)
    requires '\n' !in head && '\n' !in head' && head + NEWLINE + rest == head' + NEWLINE + rest'
    ensures head == head' && rest == rest'
  {
    assert head + NEWLINE + rest == head + ['\n'] + rest && head' + NEWLINE + rest' == head' + ['\n'] + rest';
    IndexOfAppend(head, '\n', rest);
    IndexOfAppend(head', '\n', rest');
    assert head == (head + NEWLINE + rest)[..|head|] && rest == (head + NEWLINE + rest)[|head| + 1..];
    assert head' == (head' + NEWLINE + rest')[..|head'|] && rest' == (head' + NEWLINE + rest')[|head'| + 1..];
  }

  lemma {:induction false} LinesInjective(a: seq<Text>, b: seq<Text>)
    requires |a| == |b| && OneLineEach(a) && OneLineEach(b) && Join(a, NEWLINE) == Join(b, NEWLINE)
    ensures a == b
  {
    if |a| == 1 {
      assert a == [a[0]] && b == [b[0]];
    } else if |a| > 1 {
      FirstLine(a[0], Join(a[1..], NEWLINE), b[0], Join(b[1..], NEWLINE));
      LinesInjective(a[1..], b[1..]);
      assert a == [a[0]] + a[1..] && b == [b[0]] + b[1..];
    }
  }

  function Breaks(s: Text): nat {
    if s == [] then 0 else (if s[0] == '\n' then 1 else 0) + Breaks(s[1..])
  }

  function AllBreaks(fields: seq<Text>): nat {
    if fields == [] then 0 else Breaks(fields[0]) + AllBreaks(fields[1..])
  }

  lemma {:induction false} BreaksAppend(s: Text, t: Text)
    ensures Breaks(s + t) == Breaks(s) + Breaks(t)
  {
    if s == [] {
      assert s + t == t;
    } else {
      assert (s + t)[1..] == s[1..] + t;
      BreaksAppend(s[1..], t);
    }
  }

  lemma {:induction false} NoBreaks(s: Text)
    ensures Breaks(s) == 0 <==> '\n' !in s
  {
    if s != [] {
      NoBreaks(s[1..]);
      assert s == [s[0]] + s[1..];
    }
  }

  lemma {:induction false} BreaksJoin(fields: seq<Text>)
    requires fields != []
    ensures Breaks(Join(fields, NEWLINE)) == AllBreaks(fields) + |fields| - 1
    ensures AllBreaks(fields) == 0 <==> OneLineEach(fields)
  {
    NoBreaks(fields[0]);
    assert fields == [fields[0]] + fields[1..];
    if |fields| == 1 {
      assert AllBreaks(fields[1..]) == 0;
    } else {
      var rest := Join(fields[1..], NEWLINE);
      BreaksJoin(fields[1..]);
      BreaksAppend(fields[0] + NEWLINE, rest);
      BreaksAppend(fields[0], NEWLINE);
      assert Breaks(NEWLINE) == 1;
    }
  }

  /** The lines can be told apart again: among lists of its length a string to sign made of single
      lines stands for one list of fields only. */
  lemma JoinInjective(a: seq<Text>, b: seq<Text>)
    requires |a| == |b| && OneLineEach(a) && Join(a, NEWLINE) == Join(b, NEWLINE)
    ensures a == b
  {
    hide Join, OneLineEach, Breaks, AllBreaks;
    if a != [] {
      BreaksJoin(a);
      BreaksJoin(b);
      LinesInjective(a, b);
    }
  }

  /** Whatever has the same string to sign as a request whose fields are single lines agrees with it in
      every field that was signed. */
  lemma FileStringCovers(account: Text, v: FileValues, account': Text, w: FileValues)
    requires ValidFile(v) && ValidFile(w)
    requires OneLineEach(FileFields(account, v))
    requires Join(FileFields(account, v), NEWLINE) == Join(FileFields(account', w), NEWLINE)
    ensures FileFields(account, v) == FileFields(account', w)
    ensures v.permissions == w.permissions && v.identifier == w.identifier && v.protocol == w.protocol &&
            v.version == w.version
    ensures FormatForSigning(v.start) == FormatForSigning(w.start) &&
            FormatForSigning(v.expiry) == FormatForSigning(w.expiry)
    ensures FormatIpRange(v.ipRange) == FormatIpRange(w.ipRange)
    ensures CanonicalName(account, v.shareName, v.filePath) == CanonicalName(account', w.shareName, w.filePath)
    ensures v.cacheControl == w.cacheControl && v.contentDisposition == w.contentDisposition
    ensures v.contentEncoding == w.contentEncoding && v.contentLanguage == w.contentLanguage &&
            v.contentType == w.contentType
  {
    hide CanonicalName, FormatIpRange, FormatForSigning, Join, OneLineEach;
    var a, b := FileFields(account, v), FileFields(account', w);
    JoinInjective(a, b);
    assert a[0] == b[0] && a[1] == b[1] && a[2] == b[2] && a[3] == b[3] && a[4] == b[4] && a[5] == b[5] && a[6] == b[6];
    assert a[7] == b[7] && a[8] == b[8] && a[9] == b[9] && a[10] == b[10] && a[11] == b[11] && a[12] == b[12];
  }

  lemma AccountStringCovers(account: Text, v: AccountValues, account': Text, w: AccountValues)
    requires ValidAccount(v) && ValidAccount(w)
    requires OneLineEach(AccountFields(account, v))
    requires Join(AccountFields(account, v), NEWLINE) == Join(AccountFields(account', w), NEWLINE)
    ensures AccountFields(account, v) == AccountFields(account', w) && account == account'
    ensures v.permissions == w.permissions && v.services == w.services && v.resourceTypes == w.resourceTypes
    ensures v.protocol == w.protocol && v.version == w.version && FormatIpRange(v.ipRange) == FormatIpRange(w.ipRange)
    ensures FormatForSigning(v.start) == FormatForSigning(w.start) &&
            FormatForSigning(v.expiry) == FormatForSigning(w.expiry)
  {
    hide FormatIpRange, FormatForSigning, Join, OneLineEach;
    var a, b := AccountFields(account, v), AccountFields(account', w);
    JoinInjective(a, b);
    assert a[0] == b[0] && a[1] == b[1] && a[2] == b[2] && a[3] == b[3] && a[4] == b[4];
    assert a[5] == b[5] && a[6] == b[6] && a[7] == b[7] && a[8] == b[8];
  }

  // ----- A start that is lost -----

  /** The first nanosecond after the zero time; its layout shows the zero time. */
  const FIRST_NANOSECOND := Time(1, 1, 1, 0, 0, 0, 1)

  const EARLY: FileValues :=
    FileValues("", "", FIRST_NANOSECOND, ZERO_TIME, "r", IpRange(None, None), "", "share", "", "", "", "", "", "")

  lemma EarlyIsSigned(cred: Credential)
    ensures ValidFile(EARLY) && FileSas(EARLY, Some(cred)).Ok?
  {
    assert forall c :: c in EARLY.permissions ==> c == SHARE_LETTERS[0];
    hide InOrder, FormatIpRange, FormatForSigning, CanonicalName;
  }

  lemma EarlyShowsAsZero()
    ensures var t := SasTime(FIRST_NANOSECOND, NoLayout);
            ShowsAsZero(t) && NormalTime(t) == SasTime(ZERO_TIME, Seconds)
    ensures ValidTime(FIRST_NANOSECOND) && TimeText(SasTime(FIRST_NANOSECOND, NoLayout)) != []
  {
    ParseFormatTime(SasTime(FIRST_NANOSECOND, NoLayout));
    hide FormatTime, ParseSasTime;
  }

  lemma EarlyStart(cred: Credential, p: SasQueryParameters)
    requires ValidFile(EARLY) && FileSas(EARLY, Some(cred)) == Ok(p)
    ensures p.start == SasTime(FIRST_NANOSECOND, NoLayout)
  {
    hide InOrder, LettersOf, FileFields, Join;
  }

  /** Signed with that start, a SAS that is parsed and encoded again loses it. */
  lemma EarlyStartLost(cred: Credential, p: SasQueryParameters, q: SasQueryParameters)
    requires ValidFile(EARLY) && FileSas(EARLY, Some(cred)) == Ok(p)
    requires ValidParams(p) && Reads(ParseValues(EncodeSas(p)), q)
    ensures ValidParams(q) && EncodeSas(q) != EncodeSas(p)
    ensures FieldText(p, St) != [] && FieldText(q, St) == []
  {
    hide FileSas, ParseValues, EncodeSas, Reads, ValidParams, TimeText, NormalTime, ShowsAsZero, FormatIpRange;
    EarlyStart(cred, p);
    EarlyShowsAsZero();
    EncodeStable(p, q);
    ZeroPrintsNothing(q);
  }

  lemma ZeroPrintsNothing(q: SasQueryParameters)
    requires ValidParams(q) && q.start.time == ZERO_TIME
    ensures FieldText(q, St) == []
  {
  }
}
