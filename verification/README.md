# Proofs about hashpipe

A Dafny model of the parts of hashpipe whose correctness is hardest to see by reading them, with
proofs. `dafny verify dfyconfig.toml` checks everything.

## The status store

Every hashpipe process shares one buffer of 184320 characters, 2304 records of 80 columns. Each
record is a card `KEYWORD = value / comment`; an END record closes the list. The put routines
edit it in place through moving pointers, the get routines scan it and cut a value out of a card.

`StatusBuffer.Status` is that buffer, with the routines written as they are in C: loops over an
array. Its invariant `Valid` says which list of cards the buffer holds (`Layout.Represents`): the
cards, then END, then one line that is either closed by a NUL or a stale copy of END (as `hdel`
leaves it), then closed lines only. Every put, delete, comment put and `hadd` keeps this, so a
search always meets the live END first. `Search` proves the keyword search against what it should
find, the least position that looks like the keyword. `Cards` says what a single card holds and
shows that printing and parsing a card undo each other. `Store` and `Entries` lift this to an
ordered map; `StoreLaws` states what a user relies on, over every run.

Some results have an exact boundary, because the code is not right everywhere. `Extents` says which
columns hputc and hputcom write to, whatever their arguments are, and when one of them lies outside
the card:

* a string put over a commented card stays inside the card if and only if it has at most 63
  characters (`Extents.TextStays`; at 64, `Extents.LongTextLeavesItsCard`);
* a comment put on any card of the store stays inside it unless the card's slash stands in column
  79, or its text closes in column 77 with no slash behind it (`Extents.CommentStays`). Behind a
  string put that means: a text of 63 characters put over a comment, or one of 65 put over none
  (`Extents.CommentAfterText`, `Extents.CommentsThatLeaveTheirCard`). From 66 on, a comment on a
  fresh string card is refused (`Extents.RefusedAfterText`);
* `hashpipe_find_end` compares three characters only, so it points at END exactly when no keyword
  of the store starts with END (`StatusBuffer.FindEndIsEnd`); with the one keyword ENDTIME it does
  not (`StoreLaws.EndtimeHidesEnd`).

`CardMap` keeps whole cards, comments included, in the map: operations leave the card of every
other keyword as it is to the last column, and the independence of number and comment holds inside
any run. `CardFaces` follows text, comment and comment column of one card, string cards included,
through puts of texts, numbers and comments in any run, and gives the columns of a put card in
numbers. `Readings` says what a get reads from any line, by where its quotes, slash and `=` stand.

## Angles and dates

`Sexagesimal` has `ra2str`, `dec2str`, `str2ra`, `str2dec` and `fixnegzero`, with C doubles as
reals; `NumberKinds` has `isnum` and the exponent marks it decides about, and `NumberForms` says what
the readers make of each written form: decimal, signed, with an exponent, in another base, with one
or two separators. A number without separators is in degrees. A printed angle is a number of ticks of the last decimal place: `RaTicks` and
`DecTicks` say which one, without the routines' chain of carries. Fields below sixty, an error of
less than one tick for any number of places, and reading back exactly what was printed follow.
`AngleStore` puts this together with the store: `hgetra` after `hputra`, `hgetdec` after `hputdec`.
`Dates` has `hgetdate`: its order, its calendar in numbers, and its other written forms.

## Packet pools

`SendPool` and `RecvPool` model the ibverbs pools. The links between work requests are an array;
the hardware is an environment that completes posted requests in any order, between any two polls.
Both have a transition system with invariants over every run, and a class whose methods walk and
relink the lists and are proved to do exactly such steps. `IbvInit` has the set-up loop. The
packets tile the library's memory region exactly when the last packet's offset fits in 32 bits
(`IbvInit.TilesExactly`), because the offset is a 32-bit product; 65537 packets of 65536 bytes do not
(`IbvInit.TooManyPackets`).

## The databuf ring

`Databuf` has the semaphore operations. `Pipeline` joins any number of threads by rings of any
sizes, interleaves their steps in every way, and proves safety, absence of deadlock, and that
progress reaches the output. A stage may mark its output block filled and its input block free in
either order. A wait that times out is tried again; one that is interrupted ends the thread.

## Two smaller pieces

`Checksum` is the IPv4 header checksum of section 3.1 of RFC 791 and section 1 of RFC 1071. The
routine's comment says that it stores the computed value in the header; the code stores it without
`htons`, so on a little-endian processor the stored header verifies if and only if the sum of the
other header words is a multiple of 257 (`Checksum.StoredHeaderVerifies`; on a common header it does
not, `Checksum.ExampleFails`). `PktSock` is the packet socket's ring with its
UDP filter. The filter looks for the port where a 20-byte IP header ends, so behind a longer header it
compares the header's options (`PktSock.MatchesDatagram`).

## Model

| member | source | states |
|---|---|---|
| Search.MatchesFoldAt | src/hget.c:1742-1768 | compares a pattern with its other-case twin character by character: true exactly when it occurs there ignoring case |
| Search.StrNCSearch | src/hget.c:1672-1774 | returns the first case-blind occurrence of a pattern, or nothing when there is none |
| Search.StrNSearch | src/hget.c:1594-1652 | returns the first exact occurrence, or nothing when there is none |
| Search.ScanForCard | src/hget.c:1407-1459 | the scan stops, and finds the line of the least position in columns 1 to 8 where the keyword stands behind blanks only, not continued by a visible character other than `=`; nothing when there is none |
| Search.KSearch | src/hget.c:1372-1470 | the same for the first eight characters of the keyword, over the header up to its first NUL |
| Search.BlSearch | src/hget.c:1275-1367 | returns the first of the unbroken run of blank lines just above the keyword's card, or nothing when the line above is not blank |
| CText.OtherCaseIsFolding | src/hget.c:1700-1735 | the other-case twins compare equal exactly for characters that are equal ignoring case |
| Cards.GetAfterPutNumber | src/hput.c:616-643 | a number card, however it is commented, reads back as the number put (with -0 read as 0) |
| Cards.GetAfterPutString | src/hput.c:594-622 | a quoted card reads back as its text without surrounding blanks, whatever slashes, double quotes or `=` are in it |
| Cards.OldCommentOfCard | src/hput.c:567-591 | the comment hputc takes off a card of the store is again one it can put back |
| Cards.PutTextCard | src/hput.c:594-653 | the card of a string put is a card of the store with that keyword and the cleaned text |
| Cards.PutNumberCard | src/hput.c:594-653 | the card of a number put always fits, is a card of the store with that keyword, and shows that number |
| Cards.ComKeepsNumber | src/hput.c:709-783 | a comment put on a number card keeps keyword and value, and puts the comment where a put finds it |
| Cards.ComKeepsString | src/hput.c:709-783 | a comment put on a string card that has room keeps keyword and text |
| Cards.ComStoresComment | src/hput.c:761-783 | a comment of at most 43 characters is stored whole on a number card, replacing any other |
| Cards.NumberPutsKeepComment | src/hput.c:567-643 | any number of number puts keep such a comment whole, and the card shows the last number |
| CardFaces.OldCommentOfString | src/hput.c:567-591 | what a put keeps of a string card is its whole comment and the blank behind it |
| CardFaces.TextKeepsColumns | src/hput.c:616-643 | a text put over a commented card leaves the comment behind the text, cut at the end of the card |
| CardFaces.TextOnFace | src/hput.c:594-643 | a text put with room for the comment keeps it whole and shows the cleaned text |
| CardFaces.NumberOnFace | src/hput.c:594-643 | a number put over any card keeps its comment whole, in the number's comment column |
| CardFaces.CommentOnFace | src/hput.c:730-783 | a comment put with room for it replaces the comment whole and keeps the text |
| CardFaces.NumberLayout | src/hput.c:593-643 | the columns of a number card in numbers: value ending in column 33, slash in column 35 |
| CardFaces.TextLayout | src/hput.c:419-441 | the columns of a text card in numbers: quote in column 11, 67 characters at most, slash in column 35 or four columns behind the closing quote |
| Readings.ClosedText | src/hget.c:1102-1194 | a value in single or double quotes reads as what stands between them |
| Readings.OpenText | src/hget.c:1108-1151 | a quoted value that is not closed ends at the slash or at the end of the line |
| Readings.UnquotedValue | src/hget.c:1126-1177 | any other value reads from behind the `=`, or from column 10, to the slash or the last column but one |
| Layout.KeyOnCard | src/hget.c:1416-1456 | a card matches a keyword exactly when it is its own, ignoring case: no prefix, no extension, nothing inside its value |
| Layout.SearchFindsCard | src/hget.c:1411-1456 | on a buffer that holds a list of cards, the search finds the keyword's first card and nothing behind END |
| Layout.SearchFindsEnd | src/hput.c:525-551 | the search for END finds the live END, not the stale copy |
| Layout.SearchFindsEndFrom | src/hput.c:875-880 | so does a search that starts at a later card |
| StatusBuffer.FindEndIsEnd | src/hashpipe_status.c:188-196 | the first record starting with END is the END record exactly when no keyword of the store starts with END |
| StatusBuffer.Status.SearchKey | src/hput.c:501-525 | finds the keyword's card in the buffer |
| StatusBuffer.Status.HPutC | src/hput.c:448-653 | the buffer holds the same cards with the keyword's card replaced in place, comment kept, or one card added before END |
| StatusBuffer.Status.HPutS | src/hput.c:401-442 | puts the text quoted, cut to 67 characters and padded to 8 |
| StatusBuffer.Status.HPutI | src/hput.c:68-137 | puts the decimal text of an integer of up to 64 bits |
| StatusBuffer.Status.HDel | src/hput.c:815-858 | removes exactly the keyword's card, moving the later ones and END up; returns whether there was one |
| StatusBuffer.Status.HAdd | src/hput.c:866-904 | inserts a card with the keyword alone at a line, moving the later ones and END down |
| Layout.AddLayout | src/hput.c:892-901 | the columns of an added card |
| StatusBuffer.Status.HPutCom | src/hput.c:658-789 | replaces the comment of the keyword's card and nothing else; -1 and no change when there is no card or no room |
| StatusBuffer.Status.HGetC | src/hget.c:1024-1270 | returns the value of the keyword's card, nothing when there is none |
| StatusBuffer.Status.HGetS | src/hget.c:930-962 | copies the value into the caller's buffer, cut to it; says which positions are written and when it is terminated |
| StatusBuffer.Status.HGetI4 | src/hget.c:235-291 | the value read as a 32-bit integer, exponent marks D, d and E included, saturated |
| StatusBuffer.Status.HGetU4 | src/hget.c:295-351 | the same for the unsigned range |
| StatusBuffer.Status.HGetI2 | src/hget.c:356-412 | the same for the 16-bit range |
| StatusBuffer.Status.HGetI8 | src/hget.c:163-195 | the value read by strtoll, or by atof when that stops early |
| StatusBuffer.Status.HGetU8 | src/hget.c:199-231 | the value read by strtoull, or by atof when that stops early |
| Numbers.SaturatedValue | src/hget.c:255-286 | isnum, the rewriting of exponent marks, atof and the comparisons give the saturated integer, whatever stands in front of the copied text |
| StatusBuffer.Status.Clear | src/hashpipe_status.c:236-252 | leaves a store with the INSTANCE card alone, whatever the buffer held |
| StatusBuffer.Status.ChkInit | src/hashpipe_status.c:199-233 | makes a store of a buffer without any END; on a store it puts INSTANCE exactly when it is missing or different |
| StatusBuffer.Status.FindEnd | src/hashpipe_status.c:188-196 | returns the first record that starts with END, nothing exactly when there is none, and never nothing on a store |
| StatusBuffer.FindSpan | src/hget.c:1102-1177 | the loops that find the quotes or the blank that bound a value find the span the card's form defines |
| StatusBuffer.ParseCard | src/hget.c:1099-1200 | cutting and trimming the local line in place leaves the card's value text |
| StatusBuffer.TakeComment | src/hput.c:567-591 | saves the text behind the card's comment slash up to its last kept blank |
| StatusBuffer.FindCommentStart | src/hput.c:730-766 | the column where hputcom starts writing: behind the closing quote or at the number's comment column |
| Store.PutTextStep | src/hput.c:401-653 | a string put on a good list keeps keywords distinct ignoring case, sets one entry of the map, and keeps the order |
| Store.PutNumberStep | src/hput.c:68-137 | the same for a number put, which always fits |
| Store.DeleteStep | src/hput.c:815-858 | a delete removes one entry of the map and of the order |
| Store.CommentStep | src/hput.c:658-789 | a comment put changes neither map nor order |
| Store.RunRefinesMap | src/hput.c:448-858 | any legal run of puts, comment puts and deletes is the same run on an ordered map |
| Store.GetIsLookup | src/hget.c:1024-1270 | a get is a lookup of the folded eight-character keyword |
| StoreLaws.PerformAll | src/hput.c:448-858 | running the operations on the buffer leaves it holding exactly the cards of the run on the list |
| StoreLaws.ClearedStore | src/hashpipe_status.c:236-252 | a cleared store is a good list that maps INSTANCE alone |
| StoreLaws.EveryRunIsAMapRun | src/hput.c:448-858 | from a cleared store, after any legal run, cards are distinct and legal, the map and the order are those of the run, and a get sees exactly the map |
| StoreLaws.TextRoundTrip | src/hput.c:401-442 | hgets after hputs gives the cleaned text; every other keyword reads as before |
| StoreLaws.CleanMeans | src/hget.c:1179-1200 | the cleaned text is the first 67 characters without the blanks around them, a bare -0 becoming 0 |
| StoreLaws.NumberRoundTrip | src/hget.c:163-351 | all integer getters after all integer puts: exact on their own range, saturated on a narrower one; other keywords untouched |
| StoreLaws.DeleteRemovesOne | src/hput.c:815-858 | after a delete the keyword is gone, one card less if it was there, and every other keyword reads as before |
| Extents.TextStays | src/hput.c:600-643 | of all columns hputs writes to, none lies outside the card if and only if the card had no comment or the text has at most 63 characters |
| Extents.NumberStays | src/hput.c:623-643 | an integer put never writes outside its card, whatever the comment |
| Extents.FitsIsStaying | src/hput.c:600-643 | what the store asks of a put is exactly that it stays inside the card |
| Extents.LongTextLeavesItsCard | src/hput.c:630-642 | 64 characters over a comment: a blank lands in the next card's first column, and strncpy gets the length -1 |
| Extents.CommentFitsIsStaying | src/hput.c:761-783 | what the store asks of a comment put is exactly that it stays inside the card |
| Extents.CommentStays | src/hput.c:730-783 | on any card of the store a comment that is not empty leaves the card if and only if the card is a string card with its slash in column 79, or with its closing quote in column 77 and no slash behind it |
| Extents.CommentAfterText | src/hput.c:730-783 | behind a string put, a comment leaves the card if and only if the text has 63 characters and was put over a comment, or 65 and was not |
| Extents.RefusedAfterText | src/hput.c:768-770 | a comment on a fresh string card is refused if and only if its text has 66 characters or more |
| Extents.CommentsThatLeaveTheirCard | src/hput.c:774-783 | both failing inputs, each with strncpy getting the length -1 |
| StoreLaws.EndtimeHidesEnd | src/hashpipe_status.c:188-196 | a store, one number put away from the empty one, in which hashpipe_find_end points at the keyword ENDTIME and not at END |
| StoreLaws.NumbersAndComments | src/hput.c:567-591 | on one number card value and comment are independent, under any number of re-puts and a second comment |
| CardMap.StepOnLines | src/hput.c:448-858 | what each operation does to the map from keywords to whole cards, comments included, and nothing else |
| CardMap.OthersKeepTheirCard | src/hput.c:448-858 | puts, deletes and comment puts leave the card of every other keyword as it is, to the last column |
| CardMap.FirstNumber | src/hput.c:525-643 | a number put on a new keyword leaves a number card without a comment |
| CardMap.NumbersAndCommentsInRuns | src/hput.c:567-783 | over any legal run in which a number card's own keyword gets number and comment puts only, the card shows the last number and holds the last comment whole |
| CardFaces.FirstFace | src/hput.c:525-643 | a first put leaves a card without a comment |
| CardFaces.FacesInRuns | src/hput.c:401-789 | over any legal run of texts, numbers and comments put on a keyword, each leaving room for the comment, the card shows the last value and holds the last comment whole |
| Numbers.ScanOfIntText | src/hget.c:179-194 | strtoll and strtoull read a printed integer whole, never as octal or hexadecimal |
| Numbers.LongRoundTrip | src/hget.c:163-231 | 64-bit integers, signed and unsigned, survive the text form on their whole ranges |
| Numbers.ShorterRoundTrip | src/hget.c:235-412 | the 32-bit and 16-bit getters return the printed integer, saturated to their range |
| NumberForms.KindOfNumber | src/hget.c:1824-1864 | isnum on digits, points and exponent marks, with or without a sign: 2 with a point or a small mark, else 1 |
| NumberForms.KindOfSexagesimal | src/hget.c:1854-1863 | isnum with a colon among digits: 3 |
| NumberForms.KindOfOther | src/hget.c:1834-1839 | isnum with another letter, a comma or a slash: 0 |
| NumberForms.SeenNum | src/hget.c:260-277 | the shorter integer getters see a decimal number as it is |
| NumberForms.SeenSigned | src/hget.c:260-277 | and with its sign |
| NumberForms.SeenExponent | src/hget.c:269-277 | and with its exponent, whatever the mark, except a capital D behind an integer |
| NumberForms.SaturationIs | src/hget.c:277-285 | a thousandth is added away from zero, the fraction dropped, and the range kept |
| NumberForms.HashSkipped | src/hget.c:184-184 | a leading hash sign is skipped |
| NumberForms.LongSaturates | src/hget.c:183-190 | any printed integer, however large: saturated by hgeti8, wrapped for a sign and saturated by hgetu8 |
| NumberForms.LongOfDecimal | src/hget.c:183-190 | a number with a fraction reads as its whole part, towards zero |
| NumberForms.LongInOtherBases | src/hget.c:185-185 | 0x and 0 in front make hexadecimal and octal |
| Sexagesimal.SplitAngle | src/hput.c:978-1073 | splitting, comparing with the limit and carrying yields fields below sixty that add up to the ticks of the angle |
| Sexagesimal.TicksNear | src/hput.c:989-1073 | at any number of places less than one tick is lost, and at most half a tick unless the last tick of a minute has begun |
| Sexagesimal.Ra2Str | src/hput.c:948-1084 | prints the ticks of the right ascension modulo one day, cut to the buffer |
| Sexagesimal.Dec2Str | src/hput.c:1089-1227 | prints the sign and the ticks of the declination, cut to the buffer |
| Sexagesimal.CircleTurns | src/hput.c:965-977 | the normalised right ascension lies in 0 to 360 and differs from the angle by whole turns |
| Sexagesimal.DeclinationTurns | src/hput.c:1106-1117 | the normalised declination lies above -180 and below 360 and differs from the angle by whole turns |
| Sexagesimal.NormalRange | src/hput.c:1106-1117 | angles inside the normal range stay; a declination that is not negative comes to lie in 0 to 360, a negative one above -180 and up to 180 |
| Sexagesimal.FixNegZero | src/hput.c:267-292 | drops the sign in place exactly when no digit but 0 comes before the end of the number |
| NumberKinds.IsNum | src/hget.c:1795-1867 | the kind of a text: no number, integer, decimal, or with colons, from which characters it has and which spoil it, whatever stands in front of it in memory |
| NumberKinds.MarkExponent | src/hget.c:1561-1568 | rewrites the first D, d and E of a decimal number, and nothing else |
| Sexagesimal.Str2Dec | src/hget.c:1493-1574 | reads sign, fields and separators of any text, whatever stands in front of it; leaves a colon in the text exactly when it had separators |
| Sexagesimal.Str2Ra | src/hget.c:1475-1488 | multiplies by 15 exactly when the text had separators, blanks included |
| Sexagesimal.HmsRead | src/hget.c:1536-1559 | any number of ticks, printed at any number of places, is read back exactly |
| NumberForms.AngleOfNum | src/hget.c:1475-1488 | a decimal number without separators reads as it is, as a declination and as a right ascension |
| NumberForms.AngleOfSignedNum | src/hget.c:1519-1529 | so does one with a sign |
| NumberForms.AngleOfExponent | src/hget.c:1561-1572 | so does one with an exponent; a capital mark behind an integer is not read |
| NumberForms.AngleOfTwo | src/hget.c:1552-1559 | two fields, with a colon or a blank: the second is minutes, whose fraction is not read |
| NumberForms.AngleOfThree | src/hget.c:1543-1559 | three fields, with colons or blanks: minutes, and seconds with their fraction |
| Sexagesimal.WithoutNegZeroMeans | src/hput.c:267-292 | a minus sign is dropped if and only if no digit but 0 comes before a `d`, an `e`, a blank or the end |
| AngleStore.RaFields | src/hput.c:989-1073 | at any of the seven precisions, printed hours are below 24, minutes and seconds below 60, two digits each |
| AngleStore.DecFields | src/hput.c:1121-1216 | the printed declination: the sign of the normalised angle, degrees up to 360, minutes and seconds below 60 |
| AngleStore.RaReadsBack | src/hput.c:965-1073 | at any of the seven precisions, the printed right ascension reads back within one tick of the angle around the circle, and lies in 0 to 360 |
| AngleStore.DecReadsBack | src/hput.c:1106-1216 | at any precision, the printed declination reads back within one tick of arc of the normalised angle, with its sign unless it is zero |
| AngleStore.SignDropped | src/hput.c:267-292 | dropping the sign of an all-zero text does not change what is read |
| AngleStore.HPutRa | src/hput.c:223-240 | stores the right ascension at three places |
| AngleStore.HPutDec | src/hput.c:245-262 | stores the declination at two places |
| AngleStore.HGetRa | src/hget.c:466-491 | reads a card's value as a right ascension |
| AngleStore.HGetDec | src/hget.c:496-521 | reads a card's value as a declination |
| AngleStore.ValueStartsNonBlank | src/hget.c:1179-1200 | every value of a store is empty or starts with something else than a blank, so str2dec does not look in front of it |
| AngleStore.RaRoundTrip | src/hput.c:223-240 | hgetra after hputra is within 0.001 s of time of the stored angle, modulo 360 degrees |
| AngleStore.DecRoundTrip | src/hput.c:245-262 | hgetdec after hputdec is within 0.01 arcsec of the normalised angle, sign included |
| AngleStore.RaStoredFields | src/hput.c:233-239 | hputra stores three decimal places, twelve characters |
| AngleStore.DecStoredFields | src/hput.c:255-261 | hputdec stores two decimal places with a sign, without a minus in front of zeros |
| AngleStore.DegreesRoundTrip | src/hget.c:481-487 | decimal degrees put as a text read back as they are by hgetra and hgetdec, with either sign |
| Dates.YearDay | src/hget.c:703-719 | the leap rule, the brought-in day and the loop over the months give the day of the year and its length |
| Dates.ParseOld | src/hget.c:680-702 | reads dd/mm/yy with its swap and its two centuries |
| Dates.ParseIso | src/hget.c:728-755 | reads yyyy-mm-dd with its optional parts and its swap for years below 32 |
| Dates.TimeOfDay | src/hget.c:776-803 | reads hh:mm:ss as a part of a day, with missing parts zero |
| Dates.ParseDate | src/hget.c:676-808 | the value of the date a text states, and when there is none |
| Dates.HGetDate | src/hget.c:652-812 | the same on a card of the store |
| Dates.ValueInYear | src/hget.c:757-803 | a date's value lies in its year |
| Dates.OrderIsKept | src/hget.c:757-803 | of two calendar dates with times the earlier has the smaller value, and only equal ones have equal values |
| Dates.IsoDatesInOrder | src/hget.c:728-805 | on ISO texts from the year 32 on, hgetdate is strictly increasing in calendar order and stays in the year |
| Dates.SlashIsIso | src/hget.c:680-774 | dd/mm/yy from 1950 to 2049, and dd/mm/yyyy, read as the ISO text of the same day |
| Dates.DayIsBroughtIn | src/hget.c:763-766 | a day past the end of its month reads as the last day, and day 0 as the first |
| Dates.DaysBeforeIs | src/hget.c:667-719 | the days before each month in numbers, one more behind February of a leap year; the year's length |
| Dates.MonthDaysIs | src/hget.c:669-708 | the length of each month in numbers |
| Dates.IsoDateValue | src/hget.c:728-774 | the value of an ISO date in numbers |
| Dates.IsoTextValue | src/hget.c:728-803 | the value of an ISO date with a time in numbers |
| Dates.MayInALeapYear | src/hget.c:757-774 | 2024-05-15 reads as 2024 + 135/366 |
| Dates.DashDayFirst | src/hget.c:750-755 | with dashes and a first number below 32 the day comes first and the year counts from 1900 |
| Dates.SlashYearFirst | src/hget.c:694-702 | with slashes and a first number above 31 the year comes first |
| Dates.ShortForms | src/hget.c:685-748 | one number, or two with a slash, are no date; two with a dash are the first of January |
| Dates.ShortTimes | src/hget.c:776-803 | hours and minutes are read without seconds; hours alone are not |
| SendPool.StepConserves | src/hashpipe_ibverbs.c:1427-1458 | no event makes or loses a packet |
| SendPool.ExactlyOnePlace | src/hashpipe_ibverbs.c:1329-1484 | over every interleaving, each packet is in exactly one of free list, application, posted, or completed and not collected |
| SendPool.Context.constructor | src/hashpipe_ibverbs.c:708-720 | the linking loop makes one NULL-terminated free list of all packets in order |
| SendPool.Context.Push | src/hashpipe_ibverbs.c:1440-1451 | a collected packet becomes the head of the free list, which stays linked and acyclic |
| SendPool.Context.Drain | src/hashpipe_ibverbs.c:1430-1455 | polls in batches until a poll is empty; terminates; loses no completion; leaves the application's links alone |
| SendPool.Context.PopSendPackets | src/hashpipe_ibverbs.c:1305-1350 | cuts off the first packets, as many as asked for or all there are, as a NULL-terminated list; the rest stays the free list |
| SendPool.Context.GetPkts | src/hashpipe_ibverbs.c:1353-1459 | collects every pending completion, then hands out the smaller of the capped request and what is free, as distinct packets that the hardware does not own |
| SendPool.Context.SetNext | src/hashpipe_ibverbs.c:1449-1451 | the application may relink a packet it holds without disturbing the free list |
| SendPool.Context.SendPkts | src/hashpipe_ibverbs.c:1462-1484 | posts as many packets of the list as the hardware accepts, with success exactly when that is all; -1 and no change for no list or no such queue pair |
| RecvPool.StepKeepsInv | src/hashpipe_ibverbs.c:1201-1258 | every step of a receive call, of the hardware and of a release keeps the invariant |
| RecvPool.NoLostWakeup | src/hashpipe_ibverbs.c:1201-1251 | between receive calls each completion queue is armed or has an event pending, never both; one with completions has an event; with no event pending nothing is left behind |
| RecvPool.PacketsStayHome | src/hashpipe_ibverbs.c:1276-1278 | over every run, packet k is only ever in queue pair k / recv_pkt_num, in one place, and each queue pair's total stays recv_pkt_num |
| RecvPool.ReturnedInOrder | src/hashpipe_ibverbs.c:1220-1258 | what a receive call collected is duplicate-free, of one queue pair, and the last of its completions in order, with none uncollected |
| RecvPool.LinkPackets | src/hashpipe_ibverbs.c:722-728 | links one queue pair's packets into a NULL-terminated list and touches no other link |
| RecvPool.Context.constructor | src/hashpipe_ibverbs.c:443-458 | every queue is armed, every queue pair has its own packets posted |
| RecvPool.Context.RecvPkts | src/hashpipe_ibverbs.c:1186-1259 | serves the first pending event, and returns unserved only when none came; returns a NULL-terminated, duplicate-free list of exactly the completions of that queue pair since it was last served, in order, with none left; changes no other link |
| RecvPool.Context.ReleasePkts | src/hashpipe_ibverbs.c:1262-1279 | posts a list of one queue pair's packets back to that queue pair, found from the first packet: as many as the hardware accepts, with success exactly when that is all |
| IbvInit.InitRequests | src/hashpipe_ibverbs.c:652-697 | each request's slice starts where the previous one ends, exactly the elements of the slices get the key, and library-managed elements get their 32-bit offset |
| IbvInit.SlicesTile | src/hashpipe_ibverbs.c:665-674 | slices are adjacent, disjoint, and cover exactly the first sum(num_sge) elements |
| IbvInit.TilesExactly | src/hashpipe_ibverbs.c:652-663 | the packets tile the memory region if and only if the last packet's offset fits in 32 bits |
| IbvInit.TooManyPackets | src/hashpipe_ibverbs.c:652-663 | 65537 packets of 65536 bytes do not: the last one starts where the first does |
| Databuf.WaitsAreTests | src/hashpipe_databuf.c:284-367 | both waits, the two-operation one included, change nothing and succeed exactly on a free or filled block |
| Databuf.Databuf.SemTimedOp | src/hashpipe_databuf.c:295-306 | the operations happen as a whole or, on timeout or interrupt, not at all |
| Databuf.Databuf.WaitFree | src/hashpipe_databuf.c:284-308 | succeeds only on a free block and changes nothing |
| Databuf.Databuf.WaitFilled | src/hashpipe_databuf.c:341-367 | succeeds only on a filled block and changes nothing |
| Databuf.Databuf.SetFree | src/hashpipe_databuf.c:411-430 | the block's semaphore becomes 0 and no other changes |
| Databuf.Databuf.SetFilled | src/hashpipe_databuf.c:432-451 | the block's semaphore becomes 1 and no other changes |
| Databuf.Databuf.TotalStatus | src/hashpipe_databuf.c:248-261 | returns the sum of the semaphores |
| Databuf.SumUpdate | src/hashpipe_databuf.c:248-261 | marking one block changes the total by that block alone |
| Pipeline.StepKeepsInv | src/null_output_thread.c:43-80 | every step of every thread keeps the invariant, a wait that times out and one that ends its thread included |
| Pipeline.BlocksArriveInOrder | src/hashpipe_databuf.c:411-451 | over every interleaving, the blocks delivered are the first blocks entered, each once and in order; in each ring the filled count is produced less consumed and lies between 0 and its size |
| Pipeline.UnchangedBlocksArrive | src/null_output_thread.c:43-80 | with stages that pass blocks on unchanged, the output is a prefix of the input |
| Pipeline.WriterAndReaderApart | src/hashpipe_databuf.c:341-367 | a block being written is marked free and is never the one its reader holds |
| Pipeline.NeverDeadlocked | src/hashpipe_databuf.c:288-357 | in every reachable state some thread can go on or has left after an interrupted wait, for any number of stages and any ring sizes |
| Pipeline.NoDeadlockWithoutInterrupts | src/null_output_thread.c:53-66 | in every run without an interrupted wait some thread can always go on |
| Pipeline.ProgressDelivers | src/null_output_thread.c:43-80 | the steps a run can take without delivering another block are bounded, so a pipeline that keeps stepping delivers every block |
| Checksum.SumWords | src/hashpipe_packet.h:84-91 | the 32-bit sum started at minus the check word ends as the sum of the other words |
| Checksum.FoldDown | src/hashpipe_packet.h:93-97 | the folding loop terminates and folds |
| Checksum.IphdrChecksum | src/hashpipe_packet.h:77-102 | returns the complement of the one's complement sum of the other words, whatever the old check word; changes only the check word |
| Checksum.OnesSumFolds | src/hashpipe_packet.h:92-96 | folding a plain sum is one's complement addition word by word |
| Checksum.CompletesTheSum | src/hashpipe_packet.h:98-101 | a word below 0xffff completes the other words to 0xffff if and only if it is the returned value |
| Checksum.OldCheckIsIgnored | src/hashpipe_packet.h:84-91 | the value does not depend on the check word, so a second call returns the same |
| Checksum.StoredHeaderVerifies | src/hashpipe_packet.h:99-101 | the stored header verifies on a big-endian processor, and on a little-endian one if and only if the sum of the other header words is a multiple of 257 |
| Checksum.ExampleFails | src/hashpipe_packet.h:37-52 | the value on one header, 0xb985, and that a little-endian processor then stores a check word that does not verify |
| PktSock.StepKeepsLog | src/hashpipe_pktsock.c:104-169 | placing, receiving and releasing keep the reader behind the kernel by at most the ring |
| PktSock.FilterReturnsMatching | src/hashpipe_pktsock.c:155-169 | over every run the packets returned are exactly the matching ones passed, in arrival order and once each |
| PktSock.MatchesDatagram | src/hashpipe_pktsock.h:42-49 | behind a 20-byte IP header a datagram matches if and only if its protocol is 17 and its destination port is the one asked for; behind a longer one the filter compares two option bytes |
| PktSock.Ring.KernelPlaces | src/hashpipe_pktsock.c:104-109 | the kernel places a packet exactly when its next frame was released |
| PktSock.Ring.RecvFrameNonblock | src/hashpipe_pktsock.c:104-120 | returns the next frame exactly when one is placed, and moves on, staying in range |
| PktSock.Ring.RecvUdpFrameNonblock | src/hashpipe_pktsock.c:155-169 | returns the next packet if it matches; releases its frame if it does not |
| PktSock.Ring.GiveBack | src/hashpipe_pktsock.c:195-198 | releasing the held frame makes it the kernel's again |

## Left out

- COMMENT and HISTORY cards, `hputm`, `hputl`, `hgetl`, `hgetm`, `hgetndec`, `hchange`, and the gets of several-card values: outside the map of keywords to values.
- StatusBuffer.Status.HGetC: keywords with a bracket or comma, which select a token of a value or another line separator, are excluded, and so are keywords with `=`, quotes or slashes, and END, COMMENT and HISTORY.
- StatusBuffer.Status.HPutC: that there is room for one more card is a precondition, because the check at src/hput.c:541 compares with a length computed from END and never fires.
- StatusBuffer.Status.HPutS: a string over a commented card that would write outside its card is excluded; Extents.TextStays says exactly which strings those are.
- StatusBuffer.Status.HPutCom: a comment that would be written outside its card is excluded; Extents.CommentStays says exactly on which cards that is so.
- StatusBuffer.Status.HAdd: keywords of more than eight characters are excluded; a card it adds has no value until one is put, so the map laws are about runs without it.
- Search.BlSearch: the C loop looks at a line in front of the buffer when all lines above the card are blank; the model checks the bound first.
- Search.StrNCSearch: the allocated upper-case and lower-case copies of the pattern are one character comparison here.
- StatusBuffer.Status.ChkInit: a buffer that has an END record but is not a store is excluded; locks and the shared memory around it are not modelled.
- Float printing and reading in `hputr4`, `hputr8`, `hputnr8`, `hgetr4`, `hgetr8`: they need IEEE formatting.
- Numbers.ShorterRoundTrip: `atof` reads decimal numbers with exponents; hexadecimal floats, infinities and NaNs are not modelled, and doubles are reals.
- NumberKinds.IsNum: on an empty or all-blank text the C loop that drops trailing blanks goes on in front of the text; what stands there is a parameter and does not matter, and the loop is taken to stop at its end. Sexagesimal.Str2Dec does the same, and its `atoi` does not overflow.
- Extents.TextStays: which columns are written is modelled, not what memory outside the card holds afterwards.
- Sexagesimal.Ra2Str: doubles are reals, so results are exact up to the printed digit and rounding errors of the arithmetic itself are not modelled.
- Dates.ParseDate: a month outside 1 to 12 is excluded, because the C code then reads outside its table.
- SendPool.Context.GetPkts: queue pairs are in a state to send, and polls do not fail; a packet is collected as it is pushed, not a batch at a time.
- SendPool.Context.SetNext: an application that links packets it does not hold is excluded.
- RecvPool.Context.RecvPkts: queue pairs are in a state to receive, and polls, acknowledgements and re-arming do not fail; packet lengths and time stamps are not modelled.
- RecvPool.Context.ReleasePkts: a list that mixes packets of different queue pairs is excluded; receive calls never return one.
- IbvInit.InitRequests: allocation and registration of the buffers, and a number of requests beyond the range of int, are not modelled.
- Databuf.Databuf.SemTimedOp: the operation numbers are in range; the busy-waiting forms and the retry loops around the waits repeat these calls until they succeed, and logging of a block set twice is left out.
- Pipeline.StepKeepsInv: threads are a transition system, not code; their status reports, cancellation and cleanup handlers are left out, and work on a block is one step.
- PktSock.Ring.RecvFrameNonblock: the blocking forms, which poll the socket and then call it again, are left out, and packet bytes are those from the network header on.
- `hashpipe_databuf_total_mask`, block addressing, creation and attachment of shared memory and semaphores, device discovery, flow rules, multicast, sockets, command-line tools, plugins and the thread registry.
