# QuickChat message core in Dafny

QuickChat (the `StructuMessage` application) lets a registered user write
short messages to a cell number. Each message is sent, discarded or stored.
This project models the three pieces of the application that carry its logic
once the Swing dialogs are removed.

- **User registration and login** (`quick_chat_user.dfy`, module `QuickChatUsers`).
  - The three format checks are written out as character predicates: a username with an underscore and at most five characters; a password of eight or more characters with a capital, a digit and a special character; and a `+27` cell number followed by nine digits.
  - `register` reports the first failing check, in that order.
  - `login` is an exact match of both credentials.
  - The login greeting names the user.
  - The user is a value, because its fields are final.
- **The message** (`messages.dfy`, module `Messages`; `message_json.dfy`, module `MessageJson`).
  - The ID, recipient and length checks.
  - The message hash `NN:number:FIRSTLAST`.
  - The message object with its three flags and its type, as a class whose methods update fields in place.
  - The class-wide sent counter (a Java `int`) and the `messages.json` file, as a `SharedState` object holding the counter and the file's lines.
  - The `send`/`discard`/`store` router.
  - The one-line format `storeMessageToJson` writes.
  - The field extractor and the loop that rebuilds messages from the file's lines.
- **The ledger** (`ledger.dfy`, module `StructuMessage`).
  - Ten-slot arrays of sent, discarded and stored messages.
  - The hash and ID arrays that run beside the sent slots.
  - Three counters.
  - `sendMessage`, the searches by ID and by recipient, the longest-message scan, delete by hash and the report, all as methods on arrays.

`java_strings.dfy` (module `JavaStrings`) gives the parts of `java.lang.String` and `Integer` that the code relies on:

- `trim` (drops every character up to U+0020 at both ends), `split("\\s+")` (on the six `\s` characters), `replaceAll("[^a-zA-Z0-9]", "")`, and `toUpperCase`/`toLowerCase` on ASCII letters;
- `indexOf`;
- `Integer.toString` with its inverse;
- the wrap-around of `int` increment.

A Java `String` is `Nullable<string>` where the code tests for null (the three user checks, `checkMessageID`, the user's fields and `login`'s inputs); elsewhere it is a plain string, and "## Left out" says what Java does with null there.

Properties proved beyond the individual contracts:

- Reading back a stored line returns the stored hash, recipient, body and type when none holds a double quote (`MessageJson.DecodeEncode`).
  - The writer escapes quotes and the extractor ignores the escapes. So a body `a"b` comes back as `a\` (`MessageJson.QuoteInMessageTruncates`).
- A hash always carries its message number between its colons. Its first two characters are the ID's, upper-cased, and it ends in upper-case letters and digits only. For a generated ID and a non-negative message number the hash has the shape `[0-9]{2}:[0-9]+:[A-Z0-9]*`. A negative number would put a `-` between the colons.
- Every number `register` accepts is also a valid message recipient. The converse fails.
- Each ledger action fills exactly one slot and raises one counter. A refused send changes nothing.
- Deleting a message removes exactly that message from the report.

## Model

All Java files are under `StructuMessage/src/main/java/com/mycompany/structumessage/`; the tests are under `StructuMessage/src/test/java/com/mycompany/structumessage/`.

| member | source | states |
|---|---|---|
| Messages.GenerateMessageID | StructuMessage/src/main/java/com/mycompany/structumessage/Message.java:115-122 | from ten draws in 0..9 the ID is ten ASCII digits, digit k being draw k, and it passes `checkMessageID` |
| Messages.CheckMessageIDExamples | StructuMessage/src/main/java/com/mycompany/structumessage/Message.java:127-129 | null, `""` and a 12-digit ID are rejected; `"1234567890"` is accepted |
| Messages.CheckRecipientCellExamples | StructuMessage/src/main/java/com/mycompany/structumessage/Message.java:134-136 | `"+27718693002"` is accepted and `"0841234567"` rejected |
| Messages.LengthFeedback | StructuMessage/src/main/java/com/mycompany/structumessage/Message.java:141-146 | the feedback is the ready text exactly when the body has at most 250 characters; otherwise the excess read back from the text is length − 250, and a ready text reports no excess |
| Messages.LengthFeedbackExample | StructuMessage/src/test/java/com/mycompany/structumessage/MessageTest.java:113-118 | a 260-character body is reported as exceeding by "10" |
| Messages.HashOfOneWord | StructuMessage/src/main/java/com/mycompany/structumessage/Message.java:151-156 | for a trimmed body without a space, the hash is the upper-cased `id[0..2]:n:` + stripped word + `NA` |
| Messages.HashOfWords | StructuMessage/src/main/java/com/mycompany/structumessage/Message.java:151-156 | for a trimmed body with a space, the hash is the upper-cased `id[0..2]:n:` + stripped text before the first space + stripped trailing word |
| Messages.HashLayout | StructuMessage/src/main/java/com/mycompany/structumessage/Message.java:151-156 | the hash is the upper-cased ID prefix, a colon, the number's decimal text unchanged by upper-casing, a colon and the words part |
| Messages.HashCarriesNumber | StructuMessage/src/main/java/com/mycompany/structumessage/Message.java:151-156 | for any ID, number and body, the number read back from between the two colons is the message number; the hash starts with the upper-cased first two ID characters and ends in upper-case letters and digits only |
| Messages.HashFormat | StructuMessage/src/test/java/com/mycompany/structumessage/MessageTest.java:229-231 | for a generated ID and a non-negative number the hash is two digits, `:`, a run of digits up to the next `:`, then only upper-case letters and digits |
| Messages.HashExample | StructuMessage/src/test/java/com/mycompany/structumessage/MessageTest.java:124-127 | an ID starting `12`, number 0 and `"Hi Mike, let's meet tonight"` give `"12:0:HITONIGHT"` |
| Messages.SharedState.constructor | StructuMessage/src/main/java/com/mycompany/structumessage/Message.java:88 | the class-wide sent counter starts at 0, and the file holds the lines already on disk |
| Messages.Message.constructor | StructuMessage/src/main/java/com/mycompany/structumessage/Message.java:99-109 | a new message keeps the recipient and body, has a generated ten-digit ID, the hash of that ID, number and body, type `"sent"` and all three flags set |
| Messages.Message.MarkAsSent | StructuMessage/src/main/java/com/mycompany/structumessage/Message.java:308-310 | sets the sent flag and changes no other field (so it is idempotent) |
| Messages.Message.MarkAsReceived | StructuMessage/src/main/java/com/mycompany/structumessage/Message.java:315-317 | sets the received flag and changes no other field |
| Messages.Message.MarkAsRead | StructuMessage/src/main/java/com/mycompany/structumessage/Message.java:322-324 | sets the read flag and changes no other field |
| Messages.Message.SetMessageType | StructuMessage/src/main/java/com/mycompany/structumessage/Message.java:273-275 | replaces the type and changes no other field |
| Messages.Message.StoreMessageToJson | StructuMessage/src/main/java/com/mycompany/structumessage/Message.java:211-224 | appends one element to the file's lines, the encoding of the hash, recipient, body and type, and leaves the sent counter alone (one file line when the fields hold no line break, see `MessageJson.EncodeLineSingleLine`) |
| Messages.Message.SendOptions | StructuMessage/src/main/java/com/mycompany/structumessage/Message.java:166-184 | on the lower-cased choice: `send` sets only the sent flag and raises the counter by one (wrapping as a Java int); `discard` changes nothing; `store` appends one line and changes nothing else; anything else changes nothing; each case has its status text |
| JavaStrings.WrappingIncrement | StructuMessage/src/main/java/com/mycompany/structumessage/Message.java:170 | `totalMessages++` is addition of one modulo 2^32 within the Java int range |
| MessageJson.EscapeQuotes | StructuMessage/src/main/java/com/mycompany/structumessage/Message.java:214-216 | escaping leaves a text without double quotes unchanged |
| MessageJson.ExtractJsonField | StructuMessage/src/main/java/com/mycompany/structumessage/Message.java:257-266 | `""` when the key is absent; otherwise the result is quote-free and, when non-empty, follows the FIRST `"field":"` and is followed by a quote, so it is the whole stretch up to the next quote; it is non-empty whenever the character after the first key is not a quote and a quote comes later |
| MessageJson.EncodeLineSingleLine | StructuMessage/src/main/java/com/mycompany/structumessage/Message.java:213-220 | a record whose fields hold no `\n` or `\r` is written as text without a line break, so `readLine` gets it back as exactly one line |
| MessageJson.DecodeEncode | StructuMessage/src/main/java/com/mycompany/structumessage/Message.java:240-243 | decoding a written line gives back its hash, recipient, body and type when none of them contains a double quote |
| MessageJson.QuoteInMessageTruncates | StructuMessage/src/main/java/com/mycompany/structumessage/Message.java:216 | a body `a"b` (with `a` quote-free) is read back as `a\`, so it differs from what was written |
| Messages.RebuildMessage | StructuMessage/src/main/java/com/mycompany/structumessage/Message.java:240-248 | the rebuilt message is new, has the decoded hash, recipient, body and type, a generated ID and every flag set |
| Messages.AppendRebuilt | StructuMessage/src/main/java/com/mycompany/structumessage/Message.java:245-248 | one more message, new, rebuilt from the next line, added at the end; the earlier ones are kept and all stay distinct |
| Messages.ReadMessagesFromFile | StructuMessage/src/main/java/com/mycompany/structumessage/Message.java:231-254 | no messages when the file is missing; otherwise one new, distinct message per line, in order, each rebuilt from its own line |
| QuickChatUsers.UserNameExamples | StructuMessage/src/main/java/com/mycompany/structumessage/QuickChatUser.java:51-53 | `"usr_1"` passes; `"invalidusername"` and null fail |
| QuickChatUsers.PasswordExamples | StructuMessage/src/main/java/com/mycompany/structumessage/QuickChatUser.java:76-79 | `"Secure@123"` passes; `"password"` and null fail |
| QuickChatUsers.CellPhoneExamples | StructuMessage/src/main/java/com/mycompany/structumessage/QuickChatUser.java:84-86 | `"+27812345678"` passes; `"0812345678"` and null fail |
| QuickChatUsers.CellPhoneIsRecipient | StructuMessage/src/main/java/com/mycompany/structumessage/QuickChatUser.java:84-86 | every cell number accepted at registration is accepted by `checkRecipientCell` |
| QuickChatUsers.RecipientNeedNotBeCellPhone | StructuMessage/src/main/java/com/mycompany/structumessage/Message.java:134-136 | the converse fails: `"+4412345678"` is a valid recipient but not a valid cell number |
| QuickChatUsers.RegisterOutcome | StructuMessage/src/main/java/com/mycompany/structumessage/QuickChatUser.java:93-113 | success exactly when all three checks pass; each error text exactly when its check is the first to fail, in the order username, password, cell number |
| QuickChatUsers.LoginExact | StructuMessage/src/main/java/com/mycompany/structumessage/QuickChatUser.java:118-120 | login succeeds exactly when both inputs are non-null and equal to the stored username and password |
| QuickChatUsers.LoginStatusGreets | StructuMessage/src/main/java/com/mycompany/structumessage/QuickChatUser.java:125-129 | the failure text is given exactly when the status is false; a greeting starts with `"Welcome "` |
| QuickChatUsers.SampleUserRegisters | StructuMessage/src/test/java/com/mycompany/structumessage/QuickChatUserTest.java:57-60 | the test user `usr_1` / `Secure@123` / `+27812345678` registers |
| QuickChatUsers.SampleUserLogsIn | StructuMessage/src/test/java/com/mycompany/structumessage/QuickChatUserTest.java:89-97 | the test user logs in with its own credentials and not with `wronguser` / `wrongpass` |
| QuickChatUsers.SampleUserGreeted | StructuMessage/src/test/java/com/mycompany/structumessage/QuickChatUserTest.java:101-111 | Test User is greeted as `"Welcome Test User, it is great to see you again."`; a failed login gives the fixed failure text |
| QuickChatUsers.SampleBadUserName | StructuMessage/src/test/java/com/mycompany/structumessage/QuickChatUserTest.java:64-68 | `invalidusername` fails registration with the username text |
| QuickChatUsers.SampleBadPassword | StructuMessage/src/test/java/com/mycompany/structumessage/QuickChatUserTest.java:72-77 | `weakpass` fails registration with the password text |
| QuickChatUsers.SampleBadCellPhone | StructuMessage/src/test/java/com/mycompany/structumessage/QuickChatUserTest.java:81-85 | `0812345678` fails registration with the cell number text |
| StructuMessage.Ledger.constructor | StructuMessage/src/main/java/com/mycompany/structumessage/StructuMessage.java:7-14 | five new ten-slot arrays, all empty, and zero counters |
| StructuMessage.ActionFillsOneSlot | StructuMessage/src/main/java/com/mycompany/structumessage/StructuMessage.java:122-146 | a carried-out action fills exactly one slot of its own array and raises the counter total by one, and a sent message's hash and ID land beside it; a send on a full array or an unknown action changes nothing |
| StructuMessage.Ledger.SendMessage | StructuMessage/src/main/java/com/mycompany/structumessage/StructuMessage.java:98-147 | a bad recipient or an over-long body is refused with no change to any array, counter or file; otherwise a new message with that recipient, body, a generated ID and its hash is built and the action applied as `AfterAction` says, store also writing one line |
| StructuMessage.Ledger.Dispatch | StructuMessage/src/main/java/com/mycompany/structumessage/StructuMessage.java:122-146 | the chosen action on a built message, with its success flag and the new slot values as `AfterAction` says |
| StructuMessage.Ledger.RecordSent | StructuMessage/src/main/java/com/mycompany/structumessage/StructuMessage.java:122-133 | while a sent slot is free, the message, its hash and its ID go in at `sentCount` and the count rises by one; when full, nothing changes and the result is false |
| StructuMessage.Ledger.RecordDiscarded | StructuMessage/src/main/java/com/mycompany/structumessage/StructuMessage.java:134-137 | the message goes in at `discardCount`, which rises by one |
| StructuMessage.Ledger.RecordStored | StructuMessage/src/main/java/com/mycompany/structumessage/StructuMessage.java:138-142 | the message goes in at `storeCount`, which rises by one |
| StructuMessage.Ledger.SearchByMessageID | StructuMessage/src/main/java/com/mycompany/structumessage/StructuMessage.java:170-180 | the first sent slot whose ID matches, with its recipient and body text; -1 and the not-found text when none of the first `sentCount` slots matches |
| StructuMessage.Ledger.ShowLongestMessage | StructuMessage/src/main/java/com/mycompany/structumessage/StructuMessage.java:160-168 | a body at least as long as every sent body, the earliest of greatest length, or `""` when nothing was sent |
| StructuMessage.Ledger.SearchByRecipient | StructuMessage/src/main/java/com/mycompany/structumessage/StructuMessage.java:182-197 | the header, then one line per sent slot addressed to the recipient, then one `(stored)` line per stored one, each group in slot order with empty slots skipped; the header is never empty, so the not-found text is never shown |
| StructuMessage.ListingEmpty | StructuMessage/src/main/java/com/mycompany/structumessage/StructuMessage.java:185-194 | a recipient's listing is empty exactly when no slot is addressed to that recipient |
| StructuMessage.Ledger.DeleteByMessageHash | StructuMessage/src/main/java/com/mycompany/structumessage/StructuMessage.java:199-209 | clears only the first sent slot whose hash matches, leaving counters, hash and ID arrays and every other slot as they were; with no match nothing changes and the not-found text is shown |
| StructuMessage.ClearRemovesOne | StructuMessage/src/main/java/com/mycompany/structumessage/StructuMessage.java:204 | clearing an occupied slot removes exactly that message from the occupied slots and keeps the rest in order |
| StructuMessage.DeleteLeavesReport | StructuMessage/src/main/java/com/mycompany/structumessage/StructuMessage.java:211-221 | after a delete within `sentCount`, the report lists the same messages as before less the deleted one |
| StructuMessage.Ledger.DisplayReport | StructuMessage/src/main/java/com/mycompany/structumessage/StructuMessage.java:211-221 | the occupied slots among the first `sentCount`, in slot order |

## Left out

- The Swing user interface is not modelled: `main`, the `runApp` menu loop, the `getValidUsername`/`getValidPassword`/`getValidCellphone` retry loops and every `JOptionPane` prompt and message. Dialog inputs are method parameters and dialog outputs are results.
- Null dialog inputs are not modelled; these members take plain strings where a cancelled dialog gives Java a null:
  - `StructuMessage.Ledger.SendMessage`: Java throws on a null recipient (in `checkRecipientCell`) or a null body (in `validateMessageLength`);
  - `Messages.Message.SendOptions`: Java throws on a null choice;
  - `StructuMessage.Ledger.SearchByMessageID` and `StructuMessage.Ledger.DeleteByMessageHash`: with a null query Java's `equals` never matches, so it reports "Message ID not found." or "Hash not found." and changes nothing;
  - `StructuMessage.Ledger.SearchByRecipient`: with a null recipient Java shows the header "Messages sent/stored to null:" and no matches.
- `java.util.Random` in `generateMessageID` becomes ten draws passed in by the caller. The test that two generated IDs differ is probabilistic and is not stated.
- File I/O is modelled as a sequence of lines:
  - `storeMessageToJson` appends one encoded line;
  - `File.exists` is a boolean parameter of `ReadMessagesFromFile`;
  - read and write failures (`IOException`) are not modelled.
- Messages.Message.StoreMessageToJson, like the store paths of `Messages.Message.SendOptions` and `StructuMessage.Ledger.SendMessage`, appends the encoded record as ONE element even when the recipient, hash, body or type holds `\n` or `\r`. Java writes those characters raw, and `readLine` in `readMessagesFromFile` then splits the record over several lines, each decoded on its own. The model matches the file only for records without line breaks (`MessageJson.EncodeLineSingleLine`), and `Messages.ReadMessagesFromFile` and `MessageJson.DecodeEncode` are about such one-line records.
- Messages.LengthFeedback, Messages.CheckRecipientCellExamples, StructuMessage.Ledger.ShowLongestMessage and StructuMessage.Ledger.SendMessage measure a string's length in Unicode characters, and so do `CheckMessageID`, `CheckRecipientCell` and `ValidateMessageLength` under them. Java's `length()` counts UTF-16 units, and a character above U+FFFF, such as an emoji, counts as two. The two agree only for text without such characters. For example, a body of 200 emoji is "ready" in the model, but Java measures it as 400 long, reports it as 150 over, and `sendMessage` refuses it.
- `toUpperCase`/`toLowerCase` map only `a-z`/`A-Z`; Unicode case mapping and the default locale's rules are not modelled. `trim` drops every character up to U+0020, as Java's does; `\s` is space, tab, `\n`, U+000B, U+000C and `\r`; `.` in the regexes refuses `\n`, `\r`, U+0085, U+2028 and U+2029, Java's default line terminators.
- The text layout of `displayReport`, `showSenderAndRecipients`, `printDetails` and `showLongestMessage` (labels and emoji) is not modelled. `DisplayReport` returns the messages the report lists, and `StructuMessage.Ledger.ShowLongestMessage` returns the body shown after the `"Longest message:\n"` label.
- `showSenderAndRecipients`, `printDetails` and `returnTotalMessages` are not modelled as separate members:
  - the first two only format text;
  - `returnTotalMessages` reads the counter that `SharedState` holds.
- `StructuMessage.Ledger.SearchByMessageID` and `StructuMessage.Ledger.DeleteByMessageHash` require that every cleared slot below `sentCount` comes after a match. The Java loop dereferences a cleared slot and throws a `NullPointerException` there.
- `StructuMessage.Ledger.ShowLongestMessage` requires no cleared slot below `sentCount`, for the same reason.
- `StructuMessage.Ledger.SendMessage` requires room in the discarded or stored array when that action is chosen, because the Java array store past ten slots throws.
- `QuickChatUsers.QuickChatUser.Login` requires a non-null stored username, and a non-null stored password once the usernames match. Java's `equals` on a null stored field throws.
- `Messages.CreateMessageHash` requires an ID of at least two characters (`substring(0, 2)` throws otherwise). Every generated ID has ten.
- `_resetForUnitTests`, `populateTestMessages` and `getSentCount`, which the message tests call, are not in `StructuMessage.java` and are not modelled.

## Behaviour kept as written

- Delete clears the slot. It neither shifts the later slots nor lowers `sentCount`.
- Every array has ten slots.
- Splitting a trimmed body always yields a word, so the `"NA"` fallback for the first word is never used.
- The extractor does not understand the backslash that the writer puts before a quote.
