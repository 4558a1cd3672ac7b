/** A chat message: the static validators, the hash, the message object with
    its flags, the send/discard/store router and the reading back of the
    stored lines. */
module Messages {
  import opened JavaStrings
  import opened MessageJson

  /* ------------------------------------------------------------------ */
  /* Message IDs                                                         */

  /** Ten draws of `rand.nextInt(10)`. */
  predicate ValidDraws(draws: seq<int>)
  {
    |draws| == 10 && forall k :: 0 <= k < 10 ==> 0 <= draws[k] < 10
  }

  /** Ten ASCII digits, the shape of every generated message ID. */
  predicate IsGeneratedId(id: string)
  {
    |id| == 10 && AllDigits(id)
  }

  /** `checkMessageID`: non-null, non-empty and at most ten characters. */
  predicate CheckMessageID(id: Nullable<string>)
  {
    id.NonNull? && 0 < |id.value| <= 10
  }

  /** `generateMessageID`, with the random draws supplied by the caller:
      each draw is appended as its decimal text, one digit per draw. */
  method GenerateMessageID(draws: seq<int>) returns (id: string)
    requires ValidDraws(draws)
    ensures IsGeneratedId(id)
    ensures forall k :: 0 <= k < 10 ==> DigitValue(id[k]) == draws[k]
    ensures CheckMessageID(NonNull(id))
  {
    id := "";
    for i := 0 to 10
      invariant |id| == i
      invariant forall k :: 0 <= k < i ==> IsDigit(id[k]) && DigitValue(id[k]) == draws[k]
    {
      assert IntToString(draws[i]) == [DigitChar(draws[i])];
      id := id + IntToString(draws[i]);
    }
  }

  /** The IDs the tests reject and accept. */
  lemma CheckMessageIDExamples()
    ensures !CheckMessageID(Null) && !CheckMessageID(NonNull(""))
    ensures !CheckMessageID(NonNull("123456789012"))
    ensures CheckMessageID(NonNull("1234567890"))
  {
  }

  /* ------------------------------------------------------------------ */
  /* Recipient and length checks                                         */

  /** `checkRecipientCell`: starts with `+` and has 11 to 13 characters. */
  predicate CheckRecipientCell(number: string)
  {
    |number| > 0 && number[0] == '+' && 11 <= |number| <= 13
  }

  lemma CheckRecipientCellExamples()
    ensures CheckRecipientCell("+27718693002")
    ensures !CheckRecipientCell("0841234567")
  {
  }

  const MaxLength := 250
  const ReadyText := "Message ready to send."
  const ExcessPrefix := "Message exceeds 250 characters by "
  const ExcessSuffix := ", please reduce size."

  /** `validateMessageLength`: ready up to 250 characters, otherwise the
      number of characters over the limit. */
  function ValidateMessageLength(msg: string): (feedback: string)
    ensures |msg| <= MaxLength ==> feedback == ReadyText
  {
    if |msg| <= MaxLength then ReadyText
    else ExcessPrefix + IntToString(|msg| - MaxLength) + ExcessSuffix
  }

  /** Reads the excess back out of a feedback text; None for any text that
      is not an excess report. */
  function ReportedExcess(feedback: string): Option<int>
  {
    var p, q := |ExcessPrefix|, |ExcessSuffix|;
    if |feedback| >= p + q && feedback[..p] == ExcessPrefix && feedback[|feedback| - q..] == ExcessSuffix
       && IsDecimal(feedback[p..|feedback| - q])
    then Some(ParseInt(feedback[p..|feedback| - q]))
    else None
  }

  /** The feedback is "ready" exactly when the body fits, and otherwise
      reports by how many characters it is over. */
  lemma LengthFeedback(msg: string)
    ensures ValidateMessageLength(msg) == ReadyText <==> |msg| <= MaxLength
    ensures ReportedExcess(ValidateMessageLength(msg))
            == if |msg| <= MaxLength then None else Some(|msg| - MaxLength)
  {
    var f := ValidateMessageLength(msg);
    if |msg| > MaxLength {
      var d := IntToString(|msg| - MaxLength);
      ParseIntToString(|msg| - MaxLength);
      var p, q := |ExcessPrefix|, |ExcessSuffix|;
      assert f[..p] == ExcessPrefix;
      assert f[|f| - q..] == ExcessSuffix;
      assert f[p..|f| - q] == d;
      assert |f| > |ReadyText|;
    } else {
      assert |f| < |ExcessPrefix| + |ExcessSuffix|;
    }
  }

  /** A 260-character body is reported as 10 characters over. */
  lemma LengthFeedbackExample(msg: string)
    requires |msg| == 260
    ensures ValidateMessageLength(msg) == ExcessPrefix + "10" + ExcessSuffix
    ensures ReportedExcess(ValidateMessageLength(msg)) == Some(10)
  {
    TenText();
    LengthFeedback(msg);
  }

  lemma TenText()
    ensures IntToString(10) == "10"
  {
    assert NatToString(1) == "1";
  }

  /* ------------------------------------------------------------------ */
  /* Message hash                                                        */

  /** `createMessageHash`: the first two ID characters, the message number
      and the first and last words of the trimmed body with everything but
      ASCII letters and digits removed ("NA" for a missing last word), all
      upper-cased. Splitting trimmed text always yields at least one word,
      so the first-word fallback is never taken. */
  function CreateMessageHash(id: string, msgNum: int, msg: string): (hash: string)
    requires |id| >= 2
  {
    TrimmedHasSpaceFreeEdges(msg);
    HashText(id[..2], msgNum, SplitOnSpaces(Trim(msg)))
  }

  /** The first and last words as they go into the hash, before upper-casing. */
  function FirstAndLast(words: seq<string>): string
  {
    (if |words| > 0 then StripNonAlnum(words[0]) else "NA")
    + (if |words| > 1 then StripNonAlnum(words[|words| - 1]) else "NA")
  }

  /** The hash text built from the two ID characters, the number and the
      words of the body. */
  function HashText(first2: string, msgNum: int, words: seq<string>): string
  {
    ToUpper(first2 + ":" + IntToString(msgNum) + ":" + FirstAndLast(words))
  }

  /** The hash described without the split, for a body of one word: that
      word, then "NA". */
  lemma HashOfOneWord(id: string, msgNum: int, msg: string)
    requires |id| >= 2 && NoSpace(Trim(msg))
    ensures CreateMessageHash(id, msgNum, msg)
            == ToUpper(id[..2] + ":" + IntToString(msgNum) + ":" + StripNonAlnum(Trim(msg)) + "NA")
  {
    var t := Trim(msg);
    TrimmedHasSpaceFreeEdges(msg);
    assert t[..|t|] == t;
    FirstSpaceUnique(t, |t|);
    AppendAssoc(id[..2] + ":" + IntToString(msgNum) + ":", StripNonAlnum(t), "NA");
  }

  /** The hash described without the split, for a body of several words:
      the text before the first space of the trimmed body and the trailing
      run of non-spaces. */
  lemma HashOfWords(id: string, msgNum: int, msg: string, i: nat, lastWord: string)
    requires |id| >= 2
    requires i < |Trim(msg)| && NoSpace(Trim(msg)[..i]) && IsSpace(Trim(msg)[i])
    requires IsLastWord(Trim(msg), lastWord)
    ensures CreateMessageHash(id, msgNum, msg)
            == ToUpper(id[..2] + ":" + IntToString(msgNum) + ":"
                       + StripNonAlnum(Trim(msg)[..i]) + StripNonAlnum(lastWord))
  {
    var t := Trim(msg);
    TrimmedHasSpaceFreeEdges(msg);
    FirstSpaceUnique(t, i);
    SplitLastWord(t);
    LastWordUnique(t, Last(SplitOnSpaces(t)), lastWord);
    AppendAssoc(id[..2] + ":" + IntToString(msgNum) + ":", StripNonAlnum(t[..i]), StripNonAlnum(lastWord));
  }

  /** The part of a hash after its second colon. */
  function WordsPart(msg: string): string
  {
    TrimmedHasSpaceFreeEdges(msg);
    ToUpper(FirstAndLast(SplitOnSpaces(Trim(msg))))
  }

  lemma AppendAssoc(x: string, y: string, z: string)
    ensures x + y + z == x + (y + z)
  {
  }

  lemma HashLayout(id: string, msgNum: int, msg: string)
    requires |id| >= 2
    ensures CreateMessageHash(id, msgNum, msg)
            == ToUpper(id[..2]) + ":" + IntToString(msgNum) + ":" + WordsPart(msg)
  {
    TrimmedHasSpaceFreeEdges(msg);
    var words := SplitOnSpaces(Trim(msg));
    var num := IntToString(msgNum);
    ToUpperAppend(id[..2] + ":" + num + ":", FirstAndLast(words));
    UpperPieces(id[..2], num);
    UpperOfNumber(msgNum);
  }

  lemma UpperPieces(a: string, num: string)
    ensures ToUpper(a + ":" + num + ":") == ToUpper(a) + ":" + ToUpper(num) + ":"
  {
    ToUpperAppend(a + ":" + num, ":");
    ToUpperAppend(a + ":", num);
    ToUpperAppend(a, ":");
  }

  lemma UpperOfNumber(n: int)
    ensures ToUpper(IntToString(n)) == IntToString(n)
  {
    ParseIntToString(n);
  }

  /** Upper-cased letters and digits are upper-case letters and digits. */
  lemma UpperOfAlnum(s: string)
    requires AllAlnum(s)
    ensures forall k :: 0 <= k < |s| ==> IsUpper(ToUpper(s)[k]) || IsDigit(ToUpper(s)[k])
  {
  }

  lemma WordsPartIsUpperAlnum(msg: string)
    ensures var w := WordsPart(msg); forall k :: 0 <= k < |w| ==> IsUpper(w[k]) || IsDigit(w[k])
  {
    TrimmedHasSpaceFreeEdges(msg);
    UpperOfAlnum(FirstAndLast(SplitOnSpaces(Trim(msg))));
  }

  /** The number between the colons of a hash, read back. */
  function HashNumber(hash: string): Option<int>
  {
    if |hash| < 4 || hash[2] != ':' then None
    else
      var j := IndexOf(hash, ":", 3);
      if j == -1 || !IsDecimal(hash[3..j]) then None
      else Some(ParseInt(hash[3..j]))
  }

  /** Where the two colons of `a:num:w` are, for a two-character `a` and a
      colon-free `num`. */
  lemma ColonLayout(h: string, a: string, num: string, w: string)
    requires h == a + ":" + num + ":" + w && |a| == 2 && NoChar(num, ':')
    ensures IndexOf(h, ":", 3) == 3 + |num|
    ensures h[..2] == a && h[2] == ':' && h[3..3 + |num|] == num && h[4 + |num|..] == w
  {
    assert h[3..3 + |num|] == num;
    IndexOfChar(h, ':', 3, 3 + |num|);
    assert h[4 + |num|..] == w;
  }

  lemma NumberHasNoColon(n: int)
    ensures NoChar(IntToString(n), ':')
  {
    ParseIntToString(n);
  }

  /** A hash carries its message number: the text between the two colons
      is the number, whatever the ID and the body. Before the first colon
      are the two ID characters upper-cased, and after the second only
      upper-case letters and digits. */
  lemma HashCarriesNumber(id: string, msgNum: int, msg: string)
    requires |id| >= 2
    ensures HashNumber(CreateMessageHash(id, msgNum, msg)) == Some(msgNum)
    ensures var h := CreateMessageHash(id, msgNum, msg);
      && h[..2] == ToUpper(id[..2])
      && forall k :: |h| - |WordsPart(msg)| <= k < |h| ==> IsUpper(h[k]) || IsDigit(h[k])
  {
    var h := CreateMessageHash(id, msgNum, msg);
    var num := IntToString(msgNum);
    var w := WordsPart(msg);
    HashLayout(id, msgNum, msg);
    UpperOfNumber(msgNum);
    NumberHasNoColon(msgNum);
    ColonLayout(h, ToUpper(id[..2]), num, w);
    ParseIntToString(msgNum);
    WordsPartIsUpperAlnum(msg);
    forall k | |h| - |w| <= k < |h| ensures IsUpper(h[k]) || IsDigit(h[k]) {
      assert h[k] == w[k - (|h| - |w|)];
    }
  }

  /** For a generated ID and a non-negative number the hash has the shape
      `[0-9]{2}:[0-9]+:[A-Z0-9]*`. */
  lemma HashFormat(id: string, msgNum: int, msg: string)
    requires IsGeneratedId(id) && msgNum >= 0
    ensures var h := CreateMessageHash(id, msgNum, msg);
      var j := IndexOf(h, ":", 3);
      && |h| > 4 && IsDigit(h[0]) && IsDigit(h[1]) && h[2] == ':'
      && 3 < j && AllDigits(h[3..j])
      && forall k :: j < k < |h| ==> IsUpper(h[k]) || IsDigit(h[k])
  {
    var a := ToUpper(id[..2]);
    assert a[0] == UpperChar(id[0]) && a[1] == UpperChar(id[1]);
    HashLayout(id, msgNum, msg);
    NumberHasNoColon(msgNum);
    WordsPartIsUpperAlnum(msg);
    LayoutFormat(CreateMessageHash(id, msgNum, msg), a, IntToString(msgNum), WordsPart(msg));
  }

  /** The shape of `a:num:w` for two digits `a`, a number `num` and an
      upper-case alphanumeric `w`. */
  lemma LayoutFormat(h: string, a: string, num: string, w: string)
    requires h == a + ":" + num + ":" + w && |a| == 2 && IsDigit(a[0]) && IsDigit(a[1])
    requires |num| >= 1 && AllDigits(num)
    requires forall k :: 0 <= k < |w| ==> IsUpper(w[k]) || IsDigit(w[k])
    ensures var j := IndexOf(h, ":", 3);
      && |h| > 4 && IsDigit(h[0]) && IsDigit(h[1]) && h[2] == ':'
      && 3 < j && AllDigits(h[3..j])
      && forall k :: j < k < |h| ==> IsUpper(h[k]) || IsDigit(h[k])
  {
    ColonLayout(h, a, num, w);
    forall k | 4 + |num| <= k < |h| ensures IsUpper(h[k]) || IsDigit(h[k]) {
      assert h[k] == h[4 + |num|..][k - 4 - |num|];
    }
  }

  lemma SampleTrim(msg: string)
    requires msg == "Hi Mike, let's meet tonight"
    ensures Trim(msg) == msg
  {
    assert TrimStart(msg) == msg;
    assert TrimEnd(msg) == msg;
  }

  lemma SampleWords(msg: string)
    requires msg == "Hi Mike, let's meet tonight"
    ensures msg[..2] == "Hi" && NoSpace(msg[..2]) && IsSpace(msg[2]) && IsLastWord(msg, "tonight")
  {
  }

  /** The trimmed sample message: first word "Hi", last word "tonight". */
  lemma SampleWordsOfTrimmed(msg: string)
    requires msg == "Hi Mike, let's meet tonight"
    ensures var t := Trim(msg);
      2 < |t| && t[..2] == "Hi" && NoSpace(t[..2]) && IsSpace(t[2]) && IsLastWord(t, "tonight")
  {
    SampleTrim(msg);
    SampleWords(msg);
  }

  lemma SampleText(id: string, first: string)
    requires |id| >= 2 && id[..2] == "12" && first == "Hi"
    ensures ToUpper(id[..2] + ":" + IntToString(0) + ":" + StripNonAlnum(first) + StripNonAlnum("tonight"))
            == "12:0:HITONIGHT"
  {
    SampleStrip();
    assert IntToString(0) == "0";
    SampleUpper(id[..2] + ":" + "0" + ":" + "Hi" + "tonight");
  }

  lemma SampleStrip()
    ensures StripNonAlnum("Hi") == "Hi" && StripNonAlnum("tonight") == "tonight"
  {
    assert AllAlnum("Hi") && AllAlnum("tonight");
  }

  lemma SampleUpper(s: string)
    requires s == "12" + ":" + "0" + ":" + "Hi" + "tonight"
    ensures ToUpper(s) == "12:0:HITONIGHT"
  {
  }

  /** The hash of the sample message for an ID starting "12", such as
      "1234567890", message number 0. */
  lemma HashExample(id: string, msg: string)
    requires |id| >= 2 && id[..2] == "12" && msg == "Hi Mike, let's meet tonight"
    ensures CreateMessageHash(id, 0, msg) == "12:0:HITONIGHT"
  {
    SampleWordsOfTrimmed(msg);
    HashOfWords(id, 0, msg, 2, "tonight");
    SampleText(id, Trim(msg)[..2]);
  }

  /* ------------------------------------------------------------------ */
  /* The message object                                                  */

  /** A snapshot of every field of a Message. */
  datatype MessageData = MessageData(
    messageID: string, recipient: string, message: string, messageHash: string,
    isSent: bool, isReceived: bool, isRead: bool, messageType: string)

  /** The class-wide state a Message works on: the static `totalMessages`
      counter (a Java int) and the lines of messages.json. */
  class SharedState {
    var totalMessages: int32
    var jsonLines: seq<string>

    /** Before the first message of a session: no message sent yet, and the
        file as it already is on disk. */
    constructor (existingLines: seq<string>)
      ensures totalMessages == 0 && jsonLines == existingLines
    {
      totalMessages := 0;
      jsonLines := existingLines;
    }
  }

  class Message {
    var messageID: string
    var recipient: string
    var message: string
    var messageHash: string
    var isSent: bool
    var isReceived: bool
    var isRead: bool
    var messageType: string

    function Data(): MessageData
      reads this
    {
      MessageData(messageID, recipient, message, messageHash, isSent, isReceived, isRead, messageType)
    }

    /** The four fields `storeMessageToJson` writes. */
    function Stored(): StoredRecord
      reads this
    {
      StoredRecord(messageHash, recipient, message, messageType)
    }

    /** A new sent message: a fresh random ID, the given recipient and
        body, its hash, type "sent" and every flag set. */
    constructor (recipient: string, message: string, messageNumber: int, draws: seq<int>)
      requires ValidDraws(draws)
      ensures IsGeneratedId(messageID)
      ensures forall k :: 0 <= k < 10 ==> DigitValue(messageID[k]) == draws[k]
      ensures this.recipient == recipient && this.message == message
      ensures messageHash == CreateMessageHash(messageID, messageNumber, message)
      ensures messageType == "sent"
      ensures isSent && isReceived && isRead
    {
      var id := GenerateMessageID(draws);
      messageID := id;
      this.recipient := recipient;
      this.message := message;
      messageHash := CreateMessageHash(id, messageNumber, message);
      messageType := "sent";
      isSent := true;
      isReceived := true;
      isRead := true;
    }

    method MarkAsSent()
      modifies this
      ensures Data() == old(Data()).(isSent := true)
    {
      isSent := true;
    }

    method MarkAsReceived()
      modifies this
      ensures Data() == old(Data()).(isReceived := true)
    {
      isReceived := true;
    }

    method MarkAsRead()
      modifies this
      ensures Data() == old(Data()).(isRead := true)
    {
      isRead := true;
    }

    method SetMessageType(messageType: string)
      modifies this
      ensures Data() == old(Data()).(messageType := messageType)
    {
      this.messageType := messageType;
    }

    /** `storeMessageToJson`: appends this message's line to the file. */
    method StoreMessageToJson(shared: SharedState)
      modifies shared
      ensures shared.jsonLines == old(shared.jsonLines) + [EncodeLine(Stored())]
      ensures shared.totalMessages == old(shared.totalMessages)
    {
      shared.jsonLines := shared.jsonLines + [EncodeLine(Stored())];
    }

    /** `sendOptions`: routes on the lower-cased choice. "send" sets the sent
        flag and counts the message, "discard" only answers, "store" appends
        one line to the file, anything else is refused; nothing else changes. */
    method SendOptions(choice: string, shared: SharedState) returns (status: string)
      modifies this, shared
      ensures ToLower(choice) == "send" ==>
        && Data() == old(Data()).(isSent := true)
        && shared.totalMessages == WrappingIncrement(old(shared.totalMessages))
        && shared.jsonLines == old(shared.jsonLines)
        && status == "Message successfully sent."
      ensures ToLower(choice) == "discard" ==>
        && Data() == old(Data())
        && shared.totalMessages == old(shared.totalMessages) && shared.jsonLines == old(shared.jsonLines)
        && status == "Press 0 to delete message."
      ensures ToLower(choice) == "store" ==>
        && Data() == old(Data())
        && shared.totalMessages == old(shared.totalMessages)
        && shared.jsonLines == old(shared.jsonLines) + [EncodeLine(Stored())]
        && status == "Message successfully stored."
      ensures ToLower(choice) !in {"send", "discard", "store"} ==>
        && Data() == old(Data())
        && shared.totalMessages == old(shared.totalMessages) && shared.jsonLines == old(shared.jsonLines)
        && status == "Invalid option."
    {
      var c := ToLower(choice);
      if c == "send" {
        MarkAsSent();
        shared.totalMessages := WrappingIncrement(shared.totalMessages);
        status := "Message successfully sent.";
      } else if c == "discard" {
        status := "Press 0 to delete message.";
      } else if c == "store" {
        StoreMessageToJson(shared);
        status := "Message successfully stored.";
      } else {
        status := "Invalid option.";
      }
    }
  }

  /** A message rebuilt from a stored record: the record's four fields, a
      generated ID and every flag set. */
  predicate RebuiltFrom(m: Message, rec: StoredRecord)
    reads m
  {
    && m.Stored() == rec
    && IsGeneratedId(m.messageID)
    && m.isSent && m.isReceived && m.isRead
  }

  /** No message appears twice. */
  predicate Distinct(messages: seq<Message>)
  {
    forall k, l :: 0 <= k < l < |messages| ==> messages[k] != messages[l]
  }

  /** Each message is rebuilt from the record at its position. */
  predicate AllRebuilt(messages: seq<Message>, records: seq<StoredRecord>)
    reads set m | m in messages
  {
    |messages| <= |records| && forall k :: 0 <= k < |messages| ==> RebuiltFrom(messages[k], records[k])
  }

  /** The records of a file's lines, in order. */
  ghost function DecodeAll(lines: seq<string>): (records: seq<StoredRecord>)
    ensures |records| == |lines|
    ensures forall k :: 0 <= k < |lines| ==> records[k] == DecodeLine(lines[k])
  {
    if lines == [] then [] else DecodeAll(lines[..|lines| - 1]) + [DecodeLine(lines[|lines| - 1])]
  }

  /** The body of the reading loop for one line. */
  method RebuildMessage(line: string, messageNumber: int, draws: seq<int>) returns (m: Message)
    requires ValidDraws(draws)
    ensures fresh(m) && RebuiltFrom(m, DecodeLine(line))
  {
    var rec := DecodeLine(line);
    m := new Message(rec.recipient, rec.message, messageNumber, draws);
    m.SetMessageType(rec.messageType);
    m.messageHash := rec.messageHash;
  }

  /** One step of the reading loop: the message for the next line, added
      at the end. */
  method AppendRebuilt(messages: seq<Message>, ghost records: seq<StoredRecord>, line: string, draws: seq<int>)
    returns (more: seq<Message>)
    requires ValidDraws(draws) && |messages| < |records| && records[|messages|] == DecodeLine(line)
    requires AllRebuilt(messages, records) && Distinct(messages)
    ensures |more| == |messages| + 1 && more[..|messages|] == messages && fresh(more[|messages|])
    ensures AllRebuilt(more, records) && Distinct(more)
  {
    var m := RebuildMessage(line, |messages|, draws);
    more := messages + [m];
  }

  /** `readMessagesFromFile`, given whether the file exists, its lines and
      the random draws for each rebuilt message's ID: one message per line,
      built as a new message numbered by its position, with the stored
      type and hash put back over the new ones. */
  method ReadMessagesFromFile(fileExists: bool, lines: seq<string>, draws: seq<seq<int>>)
    returns (messages: seq<Message>)
    requires |draws| == |lines| && forall i :: 0 <= i < |draws| ==> ValidDraws(draws[i])
    ensures |messages| == if fileExists then |lines| else 0
    ensures forall i :: 0 <= i < |messages| ==> fresh(messages[i])
    ensures forall i, j :: 0 <= i < j < |messages| ==> messages[i] != messages[j]
    ensures forall i :: 0 <= i < |messages| ==> RebuiltFrom(messages[i], DecodeLine(lines[i]))
  {
    messages := [];
    if !fileExists {
      return;
    }
    ghost var records := DecodeAll(lines);
    var i := 0;
    while i < |lines|
      invariant 0 <= i <= |lines| && |messages| == i
      invariant forall k :: 0 <= k < i ==> fresh(messages[k])
      invariant Distinct(messages)
      invariant AllRebuilt(messages, records)
    {
      messages := AppendRebuilt(messages, records, lines[i], draws[i]);
      i := i + 1;
    }
  }
}
