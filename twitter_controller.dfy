/**
 * `TwController.tweet` in controllers/twitter.controller.js: the same status text as the `tweet`
 * of app.js, written out again. Uploading the image and posting are not modelled.
 */
module TwitterController {
  import opened JsString
  import App

  /** The status `TwController.tweet` posts, as written. */
  function Tweet(messageId: string, titulo: string, canal: string): string {
    var canal := Substr(canal, 1, |canal|);
    var url := "https://t.me/" + canal + "/" + messageId;
    var cuerpo := "\nTe lo perdiste? Está en Telegram: ";
    var hashtags := "\n#DelSolEnTelegram #DelSol";
    var status := titulo + cuerpo + url + hashtags;
    if |status| > 280 then
      if |titulo| + |url| + |hashtags| < 278 then titulo + "\n" + url + hashtags
      else
        var n := |titulo| + |url| + |hashtags| + 2;
        var n := n - 280;
        var n := |titulo| - n - 3;
        var titulo := Substr(titulo, 0, n) + "...";
        titulo + "\n" + url + hashtags
    else status
  }

  /** The controller posts the same text as app.js for the same message, title and channel. */
  lemma TweetAgrees(messageId: string, titulo: string, canal: string)
    ensures Tweet(messageId, titulo, canal) == App.TweetStatus(messageId, titulo, canal)
  {
  }

  /** The link to the Telegram post drops the channel name's first character. */
  lemma TweetUrl(canal: string, messageId: string)
    requires canal != []
    ensures App.TelegramUrl(canal, messageId) == "https://t.me/" + canal[1..] + "/" + messageId
  {
    App.TelegramUrlShape(canal, messageId);
  }

  /** A status of at most 280 characters is the title, the body, the url and the hashtags. */
  lemma TweetFull(messageId: string, titulo: string, canal: string)
    requires |titulo + App.Cuerpo + App.TelegramUrl(canal, messageId) + App.Hashtags| <= 280
    ensures Tweet(messageId, titulo, canal) == titulo + App.Cuerpo + App.TelegramUrl(canal, messageId) + App.Hashtags
  {
    TweetAgrees(messageId, titulo, canal);
    App.TweetFull(messageId, titulo, canal);
  }

  /** Too long, but title, url and hashtags under 278: the body is dropped. */
  lemma TweetWithoutBody(messageId: string, titulo: string, canal: string)
    requires |titulo + App.Cuerpo + App.TelegramUrl(canal, messageId) + App.Hashtags| > 280
    requires |titulo| + |App.TelegramUrl(canal, messageId)| + |App.Hashtags| < 278
    ensures Tweet(messageId, titulo, canal) == titulo + "\n" + App.TelegramUrl(canal, messageId) + App.Hashtags
    ensures |Tweet(messageId, titulo, canal)| <= 278
  {
    TweetAgrees(messageId, titulo, canal);
    App.TweetWithoutBody(messageId, titulo, canal);
  }

  /** Otherwise the title keeps `275 - |url| - |hashtags|` characters and gains `...`: 279 in all. */
  lemma TweetTruncated(messageId: string, titulo: string, canal: string)
    requires |titulo + App.Cuerpo + App.TelegramUrl(canal, messageId) + App.Hashtags| > 280
    requires |titulo| + |App.TelegramUrl(canal, messageId)| + |App.Hashtags| >= 278
    requires |App.TelegramUrl(canal, messageId)| + |App.Hashtags| <= 275
    ensures var url := App.TelegramUrl(canal, messageId);
      Tweet(messageId, titulo, canal) == titulo[..275 - |url| - |App.Hashtags|] + "...\n" + url + App.Hashtags
    ensures |Tweet(messageId, titulo, canal)| == 279
  {
    TweetAgrees(messageId, titulo, canal);
    App.TweetTruncated(messageId, titulo, canal);
    var url := App.TelegramUrl(canal, messageId);
    var n := 275 - |url| - |App.Hashtags|;
    assert titulo[..n] + "..." + "\n" + url + App.Hashtags == titulo[..n] + "...\n" + url + App.Hashtags;
  }
}
