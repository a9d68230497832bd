/**
 * The dialog of src/components/AddOtpDialog.jsx that adds OTP accounts,
 * either from a manual form or from the text of a scanned QR code. The
 * `onAdd` callback is modelled by the `added` field: the URIs handed to it,
 * in order.
 */
module OtpDialog {
  import opened Wrappers
  import opened Text
  import opened OtpMigration

  /** The TOTP the manual form builds (`new OTPAuth.TOTP({...})`). */
  datatype TotpSpec = TotpSpec(issuer: string, account: string, algorithm: string, digits: nat, period: nat,
                               secret: string)

  /**
   * The foreign `otpauth` library: whether `Secret.fromBase32` accepts a
   * secret, the `toString()` of a TOTP, whether `URI.parse` accepts a URI,
   * and the pieces the conversion of a migration record uses.
   */
  datatype OtpLibrary = OtpLibrary(
    isBase32: string -> bool,
    uriOf: TotpSpec -> string,
    parses: string -> bool,
    migration: Converter)

  const DefaultAccount := "Account"
  const OtpScheme := "otpauth://"
  const WebOtpScheme := "web+otpauth://"

  // ------------------------------------------------------------ manual entry

  datatype ManualOutcome = SecretRequired | InvalidSecret | ManualAdded(uri: string)

  /** The account name the form uses: `manualLabel || "Account"`. */
  function AccountName(manualLabel: string): (a: string)
    ensures a != ""
    ensures manualLabel != "" ==> a == manualLabel
  {
    if manualLabel == "" then DefaultAccount else manualLabel
  }

  /** `handleManualSubmit`: a secret is required and must be Base32; the TOTP is SHA1, 6 digits, 30 seconds. */
  function ManualResult(lib: OtpLibrary, issuer: string, manualLabel: string, secret: string): (r: ManualOutcome)
    ensures r == SecretRequired <==> secret == ""
    ensures r.ManualAdded? <==> secret != "" && lib.isBase32(secret)
    ensures r.ManualAdded? ==> r.uri == lib.uriOf(TotpSpec(issuer, AccountName(manualLabel), "SHA1", 6, 30, secret))
  {
    if secret == "" then SecretRequired
    else if !lib.isBase32(secret) then InvalidSecret
    else ManualAdded(lib.uriOf(TotpSpec(issuer, AccountName(manualLabel), "SHA1", 6, 30, secret)))
  }

  // ---------------------------------------------------------------- QR text

  /** The non-migration branch: `otpauth://` text is kept, `web+otpauth://` is rewritten, anything else is refused. */
  function Normalize(t: string): (r: Option<string>)
    ensures r.Some? ==> OtpScheme <= r.value
    ensures r.Some? <==> OtpScheme <= t || WebOtpScheme <= t
    ensures OtpScheme <= t ==> r == Some(t)
  {
    if OtpScheme <= t then Some(t)
    else if WebOtpScheme <= t then
      var u := OtpScheme + t[|WebOtpScheme|..];
      assert u[..|OtpScheme|] == OtpScheme;
      Some(u)
    else None
  }

  /** The `finalUri` steps of `handleFileUpload`, `None` where it throws "Not an otpauth URI". */
  method NormalizeUri(qrData: string) returns (r: Option<string>)
    ensures r == Normalize(qrData)
  {
    var finalUri := qrData;
    if !(OtpScheme <= finalUri) {
      if WebOtpScheme <= finalUri {
        finalUri := OtpScheme + finalUri[|WebOtpScheme|..];
      } else {
        return None;
      }
    }
    return Some(finalUri);
  }

  /** Normalising a normalised URI changes nothing. */
  lemma NormalizeIdempotent(t: string)
    requires Normalize(t).Some?
    ensures Normalize(Normalize(t).value) == Normalize(t)
  {
  }

  /** The rewrite keeps everything after the scheme. */
  lemma WebSchemeRewritten(rest: string)
    ensures Normalize(WebOtpScheme + rest) == Some(OtpScheme + rest)
  {
    var t := WebOtpScheme + rest;
    assert t[..|WebOtpScheme|] == WebOtpScheme;
    assert t[|WebOtpScheme|..] == rest;
    assert t[0] == 'w';
    assert !(OtpScheme <= t);
  }

  /** Migration text is never taken for a plain OTP URI, so the routing is unambiguous. */
  lemma MigrationIsNotOtp(t: string)
    requires MigrationPrefix <= t
    ensures Normalize(t) == None
  {
    assert t[7] == '-';
  }

  /** The records a migration QR code carries, or `None` where decoding throws before the payload is read. */
  function MigrationRecords(t: string, data: Option<string>, atob: string -> Option<string>)
    : (r: Option<seq<OtpParameters>>)
    ensures r.Some? <==> MigrationPrefix <= t && data.Some? && data.value != "" && atob(data.value).Some?
  {
    if MigrationPrefix <= t && data.Some? && data.value != "" && atob(data.value).Some? then
      Some(MigrationEntries(BytesOf(atob(data.value).value)))
    else None
  }

  /**
   * The URIs a migration QR code decodes to, or `None` where
   * `decodeMigrationUri` throws: one for each record whose conversion does
   * not throw.
   */
  function MigrationUris(lib: OtpLibrary, t: string, data: Option<string>, atob: string -> Option<string>)
    : (r: Option<seq<string>>)
    ensures r.Some? <==> MigrationRecords(t, data, atob).Some?
    ensures r.Some? ==> |r.value| <= |MigrationRecords(t, data, atob).value|
  {
    match MigrationRecords(t, data, atob)
    case None => None
    case Some(records) => Some(ConvertedUris(lib.migration, records))
  }

  datatype QrOutcome = Imported(count: nat) | Loaded(uri: string) | QrRejected

  /**
   * Where the trimmed text of a QR code leads: the outcome and the URIs
   * handed to `onAdd`. `data` is the `data` query parameter of the text and
   * `atob` the Base64 decoder.
   */
  function Route(lib: OtpLibrary, t: string, data: Option<string>, atob: string -> Option<string>)
    : (r: (QrOutcome, seq<string>))
    ensures r.0 == QrRejected ==> r.1 == []
    ensures r.0.Imported? ==> MigrationPrefix <= t && r.0.count == |r.1| > 0
    ensures r.0.Loaded? ==> r.1 == [r.0.uri] && OtpScheme <= r.0.uri && lib.parses(r.0.uri)
  {
    if MigrationPrefix <= t then
      match MigrationUris(lib, t, data, atob)
      case None => (QrRejected, [])
      case Some(uris) => if |uris| == 0 then (QrRejected, []) else (Imported(|uris|), uris)
    else
      match Normalize(t)
      case None => (QrRejected, [])
      case Some(u) => if lib.parses(u) then (Loaded(u), [u]) else (QrRejected, [])
  }

  /** `handleQrText(qrText)`: the text is trimmed before it is routed. */
  function QrResult(lib: OtpLibrary, qrText: string, data: Option<string>, atob: string -> Option<string>)
    : (QrOutcome, seq<string>)
  {
    Route(lib, Trim(qrText), data, atob)
  }

  /** Migration text goes to the decoder; the code is refused when it decodes to nothing. */
  lemma MigrationQrRoute(lib: OtpLibrary, t: string, data: Option<string>, atob: string -> Option<string>)
    requires MigrationPrefix <= t
    ensures MigrationUris(lib, t, data, atob).None? ==> Route(lib, t, data, atob) == (QrRejected, [])
    ensures MigrationUris(lib, t, data, atob).Some? ==> var uris := MigrationUris(lib, t, data, atob).value;
      Route(lib, t, data, atob) == if uris == [] then (QrRejected, []) else (Imported(|uris|), uris)
  {
  }

  /** Text without the migration prefix is normalised and must pass `URI.parse`. */
  lemma PlainQrRoute(lib: OtpLibrary, t: string, data: Option<string>, atob: string -> Option<string>)
    requires !(MigrationPrefix <= t)
    ensures Normalize(t).None? ==> Route(lib, t, data, atob) == (QrRejected, [])
    ensures Normalize(t).Some? ==> var u := Normalize(t).value;
      Route(lib, t, data, atob) == if lib.parses(u) then (Loaded(u), [u]) else (QrRejected, [])
  {
  }

  /**
   * A migration code none of whose records converts is refused, and nothing
   * is added; a code without records is one of them.
   */
  lemma EmptyMigrationRejected(lib: OtpLibrary, qrText: string, data: Option<string>, atob: string -> Option<string>)
    requires MigrationPrefix <= Trim(qrText)
    requires MigrationRecords(Trim(qrText), data, atob).Some?
    requires var records := MigrationRecords(Trim(qrText), data, atob).value;
      forall i :: 0 <= i < |records| ==> Converted(lib.migration, records[i]).None?
    ensures QrResult(lib, qrText, data, atob) == (QrRejected, [])
  {
    NoneConverted(lib.migration, MigrationRecords(Trim(qrText), data, atob).value);
    MigrationQrRoute(lib, Trim(qrText), data, atob);
  }

  /** A migration code all of whose records convert adds one URI per record, in order. */
  lemma FullMigrationImported(lib: OtpLibrary, qrText: string, data: Option<string>, atob: string -> Option<string>)
    requires MigrationPrefix <= Trim(qrText)
    requires MigrationRecords(Trim(qrText), data, atob).Some?
    requires var records := MigrationRecords(Trim(qrText), data, atob).value;
      records != [] && forall i :: 0 <= i < |records| ==> Converted(lib.migration, records[i]).Some?
    ensures var records := MigrationRecords(Trim(qrText), data, atob).value;
      var r := QrResult(lib, qrText, data, atob);
      && r.0 == Imported(|records|)
      && |r.1| == |records|
      && forall i :: 0 <= i < |records| ==> r.1[i] == Converted(lib.migration, records[i]).value
  {
    AllConverted(lib.migration, MigrationRecords(Trim(qrText), data, atob).value);
    MigrationQrRoute(lib, Trim(qrText), data, atob);
  }

  /** Whitespace around the scanned text does not matter. */
  lemma QrTextTrimmed(lib: OtpLibrary, qrText: string, data: Option<string>, atob: string -> Option<string>)
    ensures QrResult(lib, Trim(qrText), data, atob) == QrResult(lib, qrText, data, atob)
  {
    TrimIdempotent(qrText);
  }

  class AddOtpDialog {
    var open: bool
    var manualIssuer: string
    var manualLabel: string
    var manualSecret: string
    /** The URIs passed to `onAdd` so far. */
    var added: seq<string>

    constructor ()
      ensures !open && manualIssuer == "" && manualLabel == "" && manualSecret == "" && added == []
    {
      open := false;
      manualIssuer, manualLabel, manualSecret := "", "", "";
      added := [];
    }

    /** `handleManualSubmit`: on success the URI is added, the dialog closes and the form is reset; otherwise nothing changes. */
    method HandleManualSubmit(lib: OtpLibrary) returns (r: ManualOutcome)
      modifies this
      ensures r == ManualResult(lib, old(manualIssuer), old(manualLabel), old(manualSecret))
      ensures r.ManualAdded? ==>
        added == old(added) + [r.uri] && !open && manualIssuer == "" && manualLabel == "" && manualSecret == ""
      ensures !r.ManualAdded? ==> unchanged(this)
    {
      if manualSecret == "" {
        return SecretRequired;
      }
      if !lib.isBase32(manualSecret) {
        return InvalidSecret;
      }
      var uri := lib.uriOf(TotpSpec(manualIssuer, if manualLabel == "" then DefaultAccount else manualLabel,
                                    "SHA1", 6, 30, manualSecret));
      added := added + [uri];
      open := false;
      manualIssuer, manualLabel, manualSecret := "", "", "";
      return ManualAdded(uri);
    }

    /** `uris.forEach(uri => onAdd(uri))` */
    method AddAll(uris: seq<string>)
      modifies this
      ensures added == old(added) + uris
      ensures open == old(open) && manualIssuer == old(manualIssuer)
      ensures manualLabel == old(manualLabel) && manualSecret == old(manualSecret)
    {
      for i := 0 to |uris|
        invariant added == old(added) + uris[..i]
        invariant open == old(open) && manualIssuer == old(manualIssuer)
        invariant manualLabel == old(manualLabel) && manualSecret == old(manualSecret)
      {
        assert uris[..i + 1] == uris[..i] + [uris[i]];
        added := added + [uris[i]];
      }
      assert uris[..|uris|] == uris;
    }

    /** The `otpauth-migration://` route: every converted account is added, or nothing when none converts or decoding throws. */
    method HandleMigrationText(lib: OtpLibrary, qrData: string, data: Option<string>, atob: string -> Option<string>)
      returns (r: QrOutcome)
      requires MigrationPrefix <= qrData
      modifies this
      ensures var uris := MigrationUris(lib, qrData, data, atob);
        if uris.None? || uris.value == [] then r == QrRejected && unchanged(this)
        else r == Imported(|uris.value|) && added == old(added) + uris.value && !open
      ensures manualIssuer == old(manualIssuer) && manualLabel == old(manualLabel) && manualSecret == old(manualSecret)
    {
      var decoded := DecodeMigrationUri(qrData, data, atob, lib.migration);
      if decoded.Err? {
        return QrRejected;
      }
      var uris := decoded.value;
      if |uris| == 0 {
        return QrRejected;
      }
      AddAll(uris);
      open := false;
      return Imported(|uris|);
    }

    /**
     * The QR branch of `handleFileUpload` once `jsQR` found a code: the text
     * is trimmed, migration text goes through the decoder, any other text is
     * normalised and checked by `URI.parse`. A success closes the dialog.
     */
    method HandleQrText(lib: OtpLibrary, qrText: string, data: Option<string>, atob: string -> Option<string>)
      returns (r: QrOutcome)
      modifies this
      ensures r == QrResult(lib, qrText, data, atob).0
      ensures added == old(added) + QrResult(lib, qrText, data, atob).1
      ensures r == QrRejected ==> unchanged(this)
      ensures r != QrRejected ==> !open
      ensures manualIssuer == old(manualIssuer) && manualLabel == old(manualLabel) && manualSecret == old(manualSecret)
    {
      var qrData := Trim(qrText);
      if MigrationPrefix <= qrData {
        MigrationQrRoute(lib, qrData, data, atob);
        r := HandleMigrationText(lib, qrData, data, atob);
        return;
      }
      PlainQrRoute(lib, qrData, data, atob);
      r := HandleOtpText(lib, qrData);
    }

    /** The plain route: the normalised URI is added when `URI.parse` accepts it. */
    method HandleOtpText(lib: OtpLibrary, qrData: string) returns (r: QrOutcome)
      modifies this
      ensures var u := Normalize(qrData);
        if u.None? || !lib.parses(u.value) then r == QrRejected && unchanged(this)
        else r == Loaded(u.value) && added == old(added) + [u.value] && !open
      ensures manualIssuer == old(manualIssuer) && manualLabel == old(manualLabel) && manualSecret == old(manualSecret)
    {
      var normalized := NormalizeUri(qrData);
      if normalized.None? || !lib.parses(normalized.value) {
        return QrRejected;
      }
      var finalUri := normalized.value;
      added := added + [finalUri];
      open := false;
      return Loaded(finalUri);
    }
  }
}
