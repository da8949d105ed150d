/**
 * src/utils/whatsapp.ts: the link that opens WhatsApp on a parent's number
 * with a prepared message. The number is normalised to international form
 * for Oman (country code 968); the message is percent-encoded by
 * `encodeURIComponent`, passed in here as `encode`.
 */
module WhatsApp {
  import opened Wrappers
  import opened Text

  const CountryCode := "968"
  const AppPrefix := "whatsapp://send?phone="
  const WebPrefix := "https://web.whatsapp.com/send?phone="
  const TextField := "&text="

  predicate AllDigits(s: string)
  {
    forall i :: 0 <= i < |s| ==> IsDigit(s[i])
  }

  /** A leading international `00` is dropped, once. */
  function DropIntlPrefix(d: string): (r: string)
    ensures StartsWith(d, "00") ==> r == d[2..]
    ensures !StartsWith(d, "00") ==> r == d
  {
    if StartsWith(d, "00") then d[2..] else d
  }

  /**
   * `cleanPhone`: keep the digits; drop a leading `00`; an 8-digit local
   * number gets the country code, and so does a 9-digit one after its
   * leading trunk `0` is dropped. Anything else is left as it is.
   */
  function CleanPhone(phone: string): (r: string)
    ensures AllDigits(r)
    ensures var d := DropIntlPrefix(Digits(phone));
            if |d| == 8 || (|d| == 9 && d[0] == '0') then StartsWith(r, CountryCode) && |r| == 11 else r == d
    ensures var d := DropIntlPrefix(Digits(phone));
            && (|d| == 8 ==> r == CountryCode + d)
            && (|d| == 9 && d[0] == '0' ==> r == CountryCode + d[1..])
  {
    var d := DropIntlPrefix(Digits(phone));
    if |d| == 8 then CountryCode + d
    else if |d| == 9 && d[0] == '0' then CountryCode + d[1..]
    else d
  }

  /** Punctuation, spaces and letters do not matter: only the digits of the number do. */
  lemma OnlyDigitsMatter(phone: string)
    ensures CleanPhone(phone) == CleanPhone(Digits(phone))
  {
    DigitsOfDigits(Digits(phone));
  }

  /** The number an 8-digit subscriber number stands for, whichever of the usual prefixes its digits carry. */
  lemma CleanLocal(phone: string, local: string)
    requires |local| == 8 && AllDigits(local) && local[0] != '0'
    requires Digits(phone) in {local, "0" + local, CountryCode + local, "00968" + local}
    ensures CleanPhone(phone) == CountryCode + local
  {
    var d := Digits(phone);
    if d == "00968" + local {
      assert StartsWith(d, "00") && d[2..] == CountryCode + local;
    } else if d == "0" + local {
      assert d[1] == local[0];
      assert !StartsWith(d, "00");
      assert d[1..] == local;
    } else {
      assert d[0] != '0';
    }
  }

  /**
   * The usual ways of writing the same Omani number (local, with the trunk
   * `0`, with `+968`, with `00968`, and with `968`) all give one and the same
   * international number. Omani subscriber numbers do not begin with `0`.
   */
  lemma SpellingsAgree(local: string)
    requires |local| == 8 && AllDigits(local) && local[0] != '0'
    ensures CleanPhone(local) == CountryCode + local
    ensures CleanPhone("0" + local) == CountryCode + local
    ensures CleanPhone("+968" + local) == CountryCode + local
    ensures CleanPhone("00968" + local) == CountryCode + local
    ensures CleanPhone(CountryCode + local) == CountryCode + local
  {
    DigitsOfDigits(local);
    CleanLocal(local, local);
    DigitsConcat("0", local);
    CleanLocal("0" + local, local);
    DigitsConcat("+968", local);
    assert Digits("+968") == "968" by {
      assert "+968"[1..] == "968";
      DigitsOfDigits("968");
    }
    CleanLocal("+968" + local, local);
    DigitsConcat("00968", local);
    assert Digits("00968") == "00968" by {
      DigitsOfDigits("00968");
    }
    CleanLocal("00968" + local, local);
    DigitsConcat(CountryCode, local);
    CleanLocal(CountryCode + local, local);
  }

  /** Cleaning an already international number changes nothing. */
  lemma InternationalIsFixed(number: string)
    requires |number| == 11 && AllDigits(number) && StartsWith(number, CountryCode)
    ensures CleanPhone(number) == number
  {
    DigitsOfDigits(number);
  }

  /** The link: the number's digits in the `phone` field, the encoded message in `text`. */
  function Link(prefix: string, phone: string, encodedMessage: string): (uri: string)
    ensures StartsWith(uri, prefix)
    ensures uri[|prefix|..] == CleanPhone(phone) + TextField + encodedMessage
  {
    prefix + CleanPhone(phone) + TextField + encodedMessage
  }

  /** The phone field holds digits only, so the first `&` after the prefix starts the text field. */
  lemma PhoneFieldIsDigits(prefix: string, phone: string, encodedMessage: string)
    ensures var uri := Link(prefix, phone, encodedMessage);
            var n := |prefix| + |CleanPhone(phone)|;
            && n + |TextField| <= |uri|
            && uri[n..n + |TextField|] == TextField
            && forall i :: |prefix| <= i < n ==> uri[i] != '&'
  {
    var uri := Link(prefix, phone, encodedMessage);
    var n := |prefix| + |CleanPhone(phone)|;
    assert uri[n..n + |TextField|] == TextField;
    assert forall i :: |prefix| <= i < n ==> uri[i] == CleanPhone(phone)[i - |prefix|];
  }

  /** What `sendWhatsAppOnWindows` does: nothing for a missing number, otherwise the links it opens in turn. */
  datatype Outcome = MissingPhone | Opened(uris: seq<string>)

  /**
   * A missing or empty number is refused (the user is alerted); otherwise the
   * app link is opened, and when opening it throws, the web link after it.
   * `appOpens` stands for `window.open` returning normally.
   */
  function SendWhatsApp(phone: Option<string>, message: string, encode: string -> string, appOpens: bool): (o: Outcome)
    ensures o.MissingPhone? <==> phone.None? || phone.value == ""
    ensures o.Opened? ==> |o.uris| >= 1 && o.uris[0] == Link(AppPrefix, phone.value, encode(message))
    ensures o.Opened? ==> (|o.uris| == 1 <==> appOpens)
    ensures o.Opened? && !appOpens ==> o.uris[1] == Link(WebPrefix, phone.value, encode(message))
  {
    if phone.None? || phone.value == "" then MissingPhone
    else
      var app := Link(AppPrefix, phone.value, encode(message));
      if appOpens then Opened([app])
      else Opened([app, Link(WebPrefix, phone.value, encode(message))])
  }

  /** The fallback carries the same number and message as the app link: only the address in front differs. */
  lemma FallbackSameQuery(phone: string, message: string, encode: string -> string)
    requires phone != ""
    ensures var o := SendWhatsApp(Some(phone), message, encode, false);
            o.uris[0][|AppPrefix|..] == o.uris[1][|WebPrefix|..]
  {
  }
}
