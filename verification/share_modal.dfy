/**
 * The share dialog: the text it shares, the link of each share option, what
 * a click on an option does, and the label of the copy button. URL encoding
 * is a parameter; opening windows and the clipboard are modelled by their
 * outcomes.
 */
module ShareModal {
  import opened Wrappers
  import opened Text

  /** `title` followed by ` - price` when the price is given and non-empty. */
  function ShareText(title: string, price: Option<string>): (text: string)
    ensures |text| >= |title| && text[..|title|] == title
    ensures price.None? || price.value == "" ==> text == title
    ensures price.Some? && price.value != "" ==> text[|title|..] == " - " + price.value
  {
    if price.Some? && price.value != "" then title + " - " + price.value else title
  }

  datatype ShareOption = ShareOption(name: string, url: string, note: Option<string>)

  const InstagramUrl := "https://www.instagram.com/"

  /** The six share options, in the dialog's order. */
  function ShareOptions(url: string, title: string, price: Option<string>, encode: string -> string): (r: seq<ShareOption>)
    ensures |r| == 6
    ensures r[5] == ShareOption("Instagram", InstagramUrl, Some("Copy link to share on Instagram"))
    ensures forall i :: 0 <= i < 5 ==> r[i].note.None?
  {
    var encodedUrl := encode(url);
    var encodedTitle := encode(title);
    var text := ShareText(title, price);
    var encodedText := encode(text);
    [
      ShareOption("WhatsApp", "https://wa.me/?text=" + encodedText + "%0A" + encodedUrl, None),
      ShareOption("Twitter", "https://twitter.com/intent/tweet?text=" + encodedText + "&url=" + encodedUrl, None),
      ShareOption("Facebook", "https://www.facebook.com/sharer/sharer.php?u=" + encodedUrl + "&quote=" + encodedText, None),
      ShareOption("LinkedIn", "https://www.linkedin.com/sharing/share-offsite/?url=" + encodedUrl + "&title=" + encodedTitle, None),
      ShareOption("Email", "mailto:?subject=" + encodedTitle + "&body=Check out this product: " + text + "%0A%0A" + encodedUrl, None),
      ShareOption("Instagram", InstagramUrl, Some("Copy link to share on Instagram"))
    ]
  }

  /** Every option but Instagram carries the encoded product link. */
  lemma OptionsEmbedProductLink(url: string, title: string, price: Option<string>, encode: string -> string)
    ensures var options := ShareOptions(url, title, price, encode);
      forall i :: 0 <= i < 5 ==> Contains(options[i].url, encode(url))
  {
    var options := ShareOptions(url, title, price, encode);
    var eu := encode(url);
    var et := encode(ShareText(title, price));
    var tt := encode(title);
    var text := ShareText(title, price);
    var whatsApp := "https://wa.me/?text=" + et + "%0A";
    ContainsInfix(whatsApp, eu, "");
    assert options[0].url == whatsApp + eu + "";
    var twitter := "https://twitter.com/intent/tweet?text=" + et + "&url=";
    ContainsInfix(twitter, eu, "");
    assert options[1].url == twitter + eu + "";
    ContainsInfix("https://www.facebook.com/sharer/sharer.php?u=", eu, "&quote=" + et);
    assert options[2].url == "https://www.facebook.com/sharer/sharer.php?u=" + eu + ("&quote=" + et);
    ContainsInfix("https://www.linkedin.com/sharing/share-offsite/?url=", eu, "&title=" + tt);
    assert options[3].url == "https://www.linkedin.com/sharing/share-offsite/?url=" + eu + ("&title=" + tt);
    var email := "mailto:?subject=" + tt + "&body=Check out this product: " + text + "%0A%0A";
    ContainsInfix(email, eu, "");
    assert options[4].url == email + eu + "";
  }

  /** The email option puts the share text into the body as it is, without encoding it. */
  lemma EmailBodyIsNotEncoded(url: string, title: string, price: Option<string>, encode: string -> string)
    ensures Contains(ShareOptions(url, title, price, encode)[4].url, ShareText(title, price))
  {
    var text := ShareText(title, price);
    var a := "mailto:?subject=" + encode(title) + "&body=Check out this product: ";
    ContainsInfix(a, text, "%0A%0A" + encode(url));
    assert ShareOptions(url, title, price, encode)[4].url == a + text + ("%0A%0A" + encode(url));
  }

  /** What a click on an option does. */
  datatype ShareAction = CopyLink | OpenWindow(target: string)

  /** `handleShare`: an option with a note copies the link; any other opens its URL. */
  function HandleShare(option: ShareOption): (a: ShareAction)
    ensures a == CopyLink <==> option.note.Some?
    ensures a.OpenWindow? ==> a.target == option.url
  {
    if option.note.Some? then CopyLink else OpenWindow(option.url)
  }

  /**
   * Instagram is the one option that copies; each of the others opens a
   * window on a link that carries the encoded product link.
   */
  lemma OnlyInstagramCopies(url: string, title: string, price: Option<string>, encode: string -> string, i: int)
    requires 0 <= i < 6
    ensures var option := ShareOptions(url, title, price, encode)[i];
      && (HandleShare(option) == CopyLink <==> i == 5)
      && (i < 5 ==> HandleShare(option).OpenWindow? && Contains(HandleShare(option).target, encode(url)))
  {
    OptionsEmbedProductLink(url, title, price, encode);
  }

  /** The copy button's state. */
  datatype CopyState = CopyState(copied: bool, copyText: string)

  const InitialCopy := CopyState(false, "Copy")

  /** How each clipboard route ended: `true` when it did not throw. */
  datatype CopyAttempt = CopyAttempt(clipboardWrote: bool, fallbackWrote: bool)

  /**
   * `copyToClipboard`: the clipboard, then the text-area fallback; either
   * success shows "Copied!", two failures show "Failed" and leave `copied`.
   */
  function CopyToClipboard(s: CopyState, attempt: CopyAttempt): (r: CopyState)
    ensures r.copied <==> attempt.clipboardWrote || attempt.fallbackWrote || s.copied
    ensures r.copyText == "Copied!" <==> attempt.clipboardWrote || attempt.fallbackWrote
    ensures !attempt.clipboardWrote && !attempt.fallbackWrote ==> r == s.(copyText := "Failed")
  {
    if attempt.clipboardWrote || attempt.fallbackWrote then CopyState(true, "Copied!")
    else s.(copyText := "Failed")
  }

  /** The timer that follows a successful copy. */
  function AfterCopied(s: CopyState): (r: CopyState)
    ensures r == InitialCopy
  {
    CopyState(false, "Copy")
  }

  /** The timer that follows a failed copy: only the label goes back. */
  function AfterFailed(s: CopyState): (r: CopyState)
    ensures r.copied == s.copied && r.copyText == "Copy"
  {
    s.(copyText := "Copy")
  }

  /** From a fresh dialog, a failed copy never claims to have copied, and its timer restores the button. */
  lemma FailedCopyFromStart(attempt: CopyAttempt)
    requires !attempt.clipboardWrote && !attempt.fallbackWrote
    ensures !CopyToClipboard(InitialCopy, attempt).copied
    ensures CopyToClipboard(InitialCopy, attempt).copyText == "Failed"
    ensures AfterFailed(CopyToClipboard(InitialCopy, attempt)) == InitialCopy
  {
  }

  /** Whichever route wrote the link, the button looks the same, and its timer restores it. */
  lemma CopiedLooksTheSame(s: CopyState, a: CopyAttempt, b: CopyAttempt)
    requires a.clipboardWrote || a.fallbackWrote
    requires b.clipboardWrote || b.fallbackWrote
    ensures CopyToClipboard(s, a) == CopyToClipboard(s, b) == CopyState(true, "Copied!")
    ensures AfterCopied(CopyToClipboard(s, a)) == InitialCopy
  {
  }
}
