/**
 * The conversation view (src/app/components/MessageList.tsx): what the
 * `messages.map` lays out for each message, in order. Styling is not modelled;
 * what remains is which bubbles appear, on which side, with which language
 * label and which playback call.
 */
module MessageList {

  import opened JsText
  import opened Conversation

  /** The flex row's alignment: `justify-start` (left) or `justify-end` (right). */
  datatype Justify = JustifyStart | JustifyEnd

  /** The call a bubble's play button makes: `handlePlayAudio(text, lang, isRecorded)`. */
  datatype PlayCall = PlayCall(text: string, lang: string, isRecorded: bool)

  datatype Bubble = Bubble(text: string, language: string, isUser: bool, isOriginal: bool,
                           justify: Justify, onPlay: PlayCall)

  /** One message's block: original bubble, translation bubble, and the separator after it. */
  datatype Block = Block(key: int, original: Bubble, translation: Bubble, separator: bool)

  /** The welcome screen for an empty conversation, or the blocks in message order. */
  datatype View = Welcome | Thread(blocks: seq<Block>)

  /** The block for the message at `index` of a list of `count` messages. */
  function BlockFor(msg: Message, index: nat, count: nat): Block {
    var right := msg.speakerSide == Right;
    Block(msg.id,
          Bubble(msg.originalText, BeforeFirst(msg.originalLang, '-'), right, true,
                 if right then JustifyEnd else JustifyStart,
                 PlayCall(msg.originalText, msg.originalLang, msg.wasRecorded)),
          Bubble(msg.translatedText, BeforeFirst(msg.translatedLang, '-'), !right, false,
                 if right then JustifyStart else JustifyEnd,
                 PlayCall(msg.translatedText, msg.translatedLang, false)),
          index < count - 1)
  }

  /** The component: the welcome state exactly for no messages, else one block per message, in order. */
  function Render(ms: seq<Message>): (v: View)
    ensures v.Welcome? <==> ms == []
    ensures v.Thread? ==> |v.blocks| == |ms|
    ensures v.Thread? ==> forall i :: 0 <= i < |ms| ==> v.blocks[i].key == ms[i].id
  {
    if |ms| == 0 then Welcome
    else Thread(seq(|ms|, i requires 0 <= i < |ms| => BlockFor(ms[i], i, |ms|)))
  }

  /** The bubbles of some blocks, top to bottom. */
  function Bubbles(blocks: seq<Block>): (r: seq<Bubble>)
    ensures |r| == 2 * |blocks|
  {
    if blocks == [] then [] else [blocks[0].original, blocks[0].translation] + Bubbles(blocks[1..])
  }

  /** The bubbles a view shows. */
  function ShownBubbles(v: View): seq<Bubble> {
    match v
    case Welcome => []
    case Thread(blocks) => Bubbles(blocks)
  }

  /** An empty conversation shows the welcome state and no bubble. */
  lemma EmptyShowsOnlyWelcome()
    ensures Render([]) == Welcome && ShownBubbles(Render([])) == []
  {
  }

  /** Bubble `2k` is block `k`'s original and bubble `2k + 1` its translation. */
  lemma {:induction false} BubblesAt(blocks: seq<Block>, k: nat)
    requires k < |blocks|
    ensures Bubbles(blocks)[2 * k] == blocks[k].original
    ensures Bubbles(blocks)[2 * k + 1] == blocks[k].translation
  {
    if k > 0 {
      BubblesAt(blocks[1..], k - 1);
    }
  }

  /**
   * Each message, in list order, gives exactly two bubbles: its original text
   * first, then its translation.
   */
  lemma TwoBubblesPerMessageInOrder(ms: seq<Message>, k: nat)
    requires k < |ms|
    ensures |ShownBubbles(Render(ms))| == 2 * |ms|
    ensures var b := ShownBubbles(Render(ms));
      && b[2 * k].isOriginal && b[2 * k].text == ms[k].originalText
      && !b[2 * k + 1].isOriginal && b[2 * k + 1].text == ms[k].translatedText
  {
    BubblesAt(Render(ms).blocks, k);
  }

  /**
   * Layout of one block: the original sits right exactly for a right-hand
   * speaker, the translation on the other side, `isUser` is complementary,
   * and in both bubbles "user" means "on the right".
   */
  lemma BlockLayout(ms: seq<Message>, k: nat)
    requires k < |ms|
    ensures var b := Render(ms).blocks[k];
      && (b.original.justify == JustifyEnd <==> ms[k].speakerSide == Right)
      && b.translation.justify != b.original.justify
      && b.translation.isUser == !b.original.isUser
      && (b.original.isUser <==> b.original.justify == JustifyEnd)
      && (b.translation.isUser <==> b.translation.justify == JustifyEnd)
  {
  }

  /**
   * The language label is the tag's part before the first "-" ("es" for
   * "es-ES"), and the play calls: the original passes the message's
   * `wasRecorded`, the translation always false, each with its own text and full tag.
   */
  lemma BlockLabelsAndPlayback(ms: seq<Message>, k: nat)
    requires k < |ms|
    ensures var b := Render(ms).blocks[k];
      && b.original.language == BeforeFirst(ms[k].originalLang, '-')
      && b.translation.language == BeforeFirst(ms[k].translatedLang, '-')
      && b.original.language <= ms[k].originalLang && '-' !in b.original.language
      && b.translation.language <= ms[k].translatedLang && '-' !in b.translation.language
      && ('-' !in ms[k].originalLang ==> b.original.language == ms[k].originalLang)
      && b.original.onPlay == PlayCall(ms[k].originalText, ms[k].originalLang, ms[k].wasRecorded)
      && b.translation.onPlay == PlayCall(ms[k].translatedText, ms[k].translatedLang, false)
  {
    if '-' !in ms[k].originalLang {
      BeforeFirstAbsent(ms[k].originalLang, '-');
    }
  }

  /** Number of separators among some blocks. */
  function SeparatorCount(blocks: seq<Block>): nat {
    if blocks == [] then 0 else (if blocks[0].separator then 1 else 0) + SeparatorCount(blocks[1..])
  }

  lemma {:induction false} SeparatorsAllButLast(blocks: seq<Block>)
    requires blocks != []
    requires forall i :: 0 <= i < |blocks| ==> (blocks[i].separator <==> i < |blocks| - 1)
    ensures SeparatorCount(blocks) == |blocks| - 1
  {
    if |blocks| > 1 {
      var rest := blocks[1..];
      assert forall i :: 0 <= i < |rest| ==> rest[i] == blocks[i + 1];
      SeparatorsAllButLast(rest);
    }
  }

  /** A separator follows every message but the last: n - 1 separators for n messages. */
  lemma SeparatorCountOfThread(ms: seq<Message>)
    requires ms != []
    ensures SeparatorCount(Render(ms).blocks) == |ms| - 1
    ensures !Render(ms).blocks[|ms| - 1].separator
  {
    SeparatorsAllButLast(Render(ms).blocks);
  }
}
