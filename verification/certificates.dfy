/** The gift-certificate record (src/types/index.ts) and its signing and
    verification rules (src/utils/verification.ts). Optional fields are
    `Option`s; dates are millisecond timestamps. The clock reading
    (`new Date().toISOString()`) and the randomly generated verification
    code are parameters of `SignCertificate`. */
module Certificates {
  import opened Wrappers

  datatype TextAlign = Left | Center | Right

  datatype TextFieldConfig = TextFieldConfig(
    fontSize: real,
    fontFamily: string,
    textAlign: TextAlign,
    enabled: bool,
    customLabel: Option<string>,
    customSuffix: Option<string>,
    priceLabel: Option<string>,
    purchaseDateLabel: Option<string>,
    redeemDateLabel: Option<string>)

  datatype Signatures = Signatures(
    sender: Option<string>,
    recipient: Option<string>,
    timestamp: Option<string>,
    verificationCode: Option<string>,
    enabled: bool,
    customLabel: Option<string>,
    senderLabel: Option<string>,
    recipientLabel: Option<string>)

  datatype QrCode = QrCode(enabled: bool, caption: Option<string>)

  datatype QrCodes = QrCodes(verification: QrCode, tracking: QrCode)

  datatype Certificate = Certificate(
    id: string,
    stockSymbol: string,
    shares: real,
    purchasePrice: real,
    purchaseDate: int,
    redeemDate: int,
    currency: string,
    customCurrencySymbol: Option<string>,
    walletAddress: Option<string>,
    recipientName: string,
    senderName: string,
    message: Option<string>,
    signatures: Signatures,
    qrCodes: QrCodes,
    textConfig: map<string, TextFieldConfig>)

  datatype Signer = Sender | Recipient

  /** `verifyCertificate`: strict equality of the stored code with the given
      string; a certificate without a code verifies against nothing. */
  predicate VerifyCertificate(cert: Certificate, code: string) {
    cert.signatures.verificationCode == Some(code)
  }

  /** The stored code is present and non-empty (JavaScript truthiness). */
  predicate HasCode(s: Signatures) {
    s.verificationCode.Some? && s.verificationCode.value != ""
  }

  /** `signCertificate(cert, signer, signature)` at clock reading `now`, with
      `freshCode` the value `generateVerificationCode()` would produce. */
  function SignCertificate(cert: Certificate, signer: Signer, signature: string,
                           now: string, freshCode: string): (signed: Certificate)
    // only the signature block changes
    ensures signed.(signatures := cert.signatures) == cert
    // the signer's field and the timestamp are set, the other signer's kept
    ensures signer == Sender ==>
      signed.signatures.sender == Some(signature) && signed.signatures.recipient == cert.signatures.recipient
    ensures signer == Recipient ==>
      signed.signatures.recipient == Some(signature) && signed.signatures.sender == cert.signatures.sender
    ensures signed.signatures.timestamp == Some(now)
    // labels and the enabled flag are kept
    ensures signed.signatures.enabled == cert.signatures.enabled
    ensures signed.signatures.customLabel == cert.signatures.customLabel
    ensures signed.signatures.senderLabel == cert.signatures.senderLabel
    ensures signed.signatures.recipientLabel == cert.signatures.recipientLabel
    // an existing code is preserved; an absent or empty one is replaced
    ensures HasCode(cert.signatures) ==> signed.signatures.verificationCode == cert.signatures.verificationCode
    ensures !HasCode(cert.signatures) ==> signed.signatures.verificationCode == Some(freshCode)
  {
    var s := cert.signatures;
    var withSignature := match signer
      case Sender => s.(sender := Some(signature))
      case Recipient => s.(recipient := Some(signature));
    var code := if HasCode(s) then s.verificationCode.value else freshCode;
    cert.(signatures := withSignature.(timestamp := Some(now), verificationCode := Some(code)))
  }

  /** A signed certificate verifies against exactly one code: its existing
      code if it had one, the freshly generated one otherwise. */
  lemma VerifySignedCertificate(cert: Certificate, signer: Signer, signature: string,
                                now: string, freshCode: string, code: string)
    ensures VerifyCertificate(SignCertificate(cert, signer, signature, now, freshCode), code)
        <==> code == (if HasCode(cert.signatures) then cert.signatures.verificationCode.value else freshCode)
  {
  }

  /** Strict equality with `undefined` fails: a certificate that was never
      given a code verifies against no string, the empty one included. */
  lemma VerifyWithoutCodeFails(cert: Certificate, code: string)
    requires cert.signatures.verificationCode.None?
    ensures !VerifyCertificate(cert, code)
    ensures VerifyCertificate(cert.(signatures := cert.signatures.(verificationCode := Some(code))), code)
  {
  }

  /** A certificate verifies against at most one code, and only when it
      carries one. */
  lemma VerifyCodeUnique(cert: Certificate, a: string, b: string)
    ensures VerifyCertificate(cert, a) ==> cert.signatures.verificationCode.Some?
    ensures VerifyCertificate(cert, a) && VerifyCertificate(cert, b) ==> a == b
  {
  }

  /** A second signature, by either party, keeps the code the first one left,
      provided that code is non-empty. */
  lemma SignTwiceKeepsCode(cert: Certificate, signer1: Signer, signature1: string, now1: string, code1: string,
                           signer2: Signer, signature2: string, now2: string, code2: string)
    requires HasCode(cert.signatures) || code1 != ""
    ensures var once := SignCertificate(cert, signer1, signature1, now1, code1);
      SignCertificate(once, signer2, signature2, now2, code2).signatures.verificationCode
        == once.signatures.verificationCode
  {
  }

  /** Both parties signing, in either order, yields the same signatures and
      code; only the timestamp records which signature came last. */
  lemma SignBothOrderIndependent(cert: Certificate, senderSig: string, recipientSig: string,
                                 now1: string, now2: string, code: string)
    ensures var a := SignCertificate(SignCertificate(cert, Sender, senderSig, now1, code), Recipient, recipientSig, now2, code);
      var b := SignCertificate(SignCertificate(cert, Recipient, recipientSig, now1, code), Sender, senderSig, now2, code);
      a == b
  {
  }
}
