/** `post_to_channel` in main.py: a photo whose caption is the title, then
    an HTML text message with the title in bold above the explanation. The
    Telegram bot is an object whose sends are recorded in a ghost trace. */
module Publisher {
  import opened Runtime
  import opened Fetchers

  const PARSE_MODE := "HTML"

  /** One outbound Telegram call, as the channel receives it. */
  datatype Message =
    | Photo(chatId: Option<string>, photo: Option<string>, caption: Option<string>, parseMode: string)
    | Text(chatId: Option<string>, text: string, parseMode: string)

  /** Whether the sends go through; a send that fails raises. */
  datatype Delivery = Delivered | PhotoFails | TextFails

  /** How many of the two sends complete before one raises. */
  function Completed(d: Delivery): nat {
    match d
    case Delivered => 2
    case TextFails => 1
    case PhotoFails => 0
  }

  /** An f-string placeholder for a value that is a `str` or `None`. */
  function Render(v: Option<string>): string {
    match v
    case Some(s) => s
    case None => "None"
  }

  /** The text message: the title in bold, a blank line, the explanation. */
  function FormatText(title: Option<string>, explanation: Option<string>): string {
    "<b>" + Render(title) + "</b>\n\n" + Render(explanation)
  }

  /** The two messages one post consists of, in the order they are sent. */
  function PostMessages(chatId: Option<string>, data: Record): (ms: seq<Message>)
    ensures |ms| == 2
    ensures ms[0] == Photo(chatId, data.url, data.title, PARSE_MODE)
    ensures ms[1].Text? && ms[1].chatId == chatId && ms[1].parseMode == PARSE_MODE
  {
    [Photo(chatId, data.url, data.title, PARSE_MODE),
     Text(chatId, FormatText(data.title, data.explanation), PARSE_MODE)]
  }

  /** The position of the first `c` in `s`, or `|s|` when there is none. */
  function Find(s: string, c: char): (i: nat)
    ensures i <= |s|
    ensures c !in s[..i]
    ensures i < |s| ==> s[i] == c
  {
    if s == [] || s[0] == c then 0
    else
      var i := 1 + Find(s[1..], c);
      assert s[..i] == [s[0]] + s[1..][..i - 1];
      i
  }

  const CLOSE_BOLD := "</b>\n\n"

  /** A reader for the text message: the bold part up to the first '<'
      after the opening tag, and the rest after the closing tag and the
      blank line. */
  function ParseText(m: string): Option<(string, string)> {
    if |m| < 3 || m[..3] != "<b>" then None
    else
      var body := m[3..];
      var i := Find(body, '<');
      if i + |CLOSE_BOLD| <= |body| && body[i..i + |CLOSE_BOLD|] == CLOSE_BOLD
      then Some((body[..i], body[i + |CLOSE_BOLD|..]))
      else None
  }

  /** A title without '<' and the explanation are read back from the
      text message unchanged. */
  lemma ParseFormatted(title: string, explanation: string)
    requires '<' !in title
    ensures ParseText(FormatText(Some(title), Some(explanation))) == Some((title, explanation))
  {
    var m := FormatText(Some(title), Some(explanation));
    var tail := CLOSE_BOLD[1..] + explanation;
    var body := title + ['<'] + tail;
    assert m == "<b>" + body && m[3..] == body;
    FindFirst(title, '<', tail);
    assert body[|title|..|title| + |CLOSE_BOLD|] == CLOSE_BOLD;
    assert body[..|title|] == title;
    assert body[|title| + |CLOSE_BOLD|..] == explanation;
  }

  /** `Find` stops at the first occurrence. */
  lemma FindFirst(p: string, c: char, tail: string)
    requires c !in p
    ensures Find(p + [c] + tail, c) == |p|
  {
    var s := p + [c] + tail;
    var i := Find(s, c);
    assert s[|p|] == c;
    assert forall k :: 0 <= k < |p| ==> s[k] == p[k];
  }

  /** The text of a post carries the record's title (as bold text) and its
      explanation, both as an f-string renders them. */
  lemma PostedTextReadsBack(chatId: Option<string>, data: Record)
    requires '<' !in Render(data.title)
    ensures ParseText(PostMessages(chatId, data)[1].text) == Some((Render(data.title), Render(data.explanation)))
  {
    ParseFormatted(Render(data.title), Render(data.explanation));
    assert FormatText(data.title, data.explanation)
      == FormatText(Some(Render(data.title)), Some(Render(data.explanation)));
  }

  /** The Telegram bot, bound to the configured channel. */
  class Bot {
    const chatId: Option<string>
    /** Every message that reached the channel, oldest first. */
    ghost var sent: seq<Message>

    constructor (chatId: Option<string>)
      ensures this.chatId == chatId && sent == []
    {
      this.chatId := chatId;
      sent := [];
    }

    /** `bot.send_photo`; `delivered` says whether the call goes through. */
    method SendPhoto(photo: Option<string>, caption: Option<string>, delivered: bool)
      returns (err: Option<Exception>)
      modifies this
      ensures err == if delivered then None else Some(NetworkError)
      ensures sent == old(sent) + if delivered then [Photo(chatId, photo, caption, PARSE_MODE)] else []
    {
      if delivered {
        sent := sent + [Photo(chatId, photo, caption, PARSE_MODE)];
        err := None;
      } else {
        err := Some(NetworkError);
      }
    }

    /** `bot.send_message`; `delivered` says whether the call goes through. */
    method SendMessage(text: string, delivered: bool) returns (err: Option<Exception>)
      modifies this
      ensures err == if delivered then None else Some(NetworkError)
      ensures sent == old(sent) + if delivered then [Text(chatId, text, PARSE_MODE)] else []
    {
      if delivered {
        sent := sent + [Text(chatId, text, PARSE_MODE)];
        err := None;
      } else {
        err := Some(NetworkError);
      }
    }

    /** `post_to_channel`: the photo first, then the text; a failed send
        raises and the text is not attempted after a failed photo. */
    method PostToChannel(data: Record, delivery: Delivery) returns (err: Option<Exception>)
      modifies this
      ensures err == if delivery == Delivered then None else Some(NetworkError)
      ensures sent == old(sent) + PostMessages(chatId, data)[..Completed(delivery)]
    {
      var title := data.title;
      var explanation := data.explanation;
      var imageUrl := data.url;
      var message := FormatText(title, explanation);
      err := SendPhoto(imageUrl, title, delivery != PhotoFails);
      if err.Some? {
        return;
      }
      err := SendMessage(message, delivery == Delivered);
    }
  }
}
