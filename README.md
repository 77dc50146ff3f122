# Salvac FSD core, modelled in Dafny

Salvac is a radar client for the FSD air-traffic simulation network. This project models its protocol core and the data structures that core leans on:

- **Value types** of Salvac.Data: `Squawk` (a 12-bit octal transponder code), `Distance`, `Speed`, `Pressure`, `Angle` and `Frequency` with their unit conversions, parsing and formatting. `Utils.FloatingEqual` is modelled over reals.
- **FSD messages**: the common header (type tag, source, optional destination), the token splitting of a wire line, and each message kind the session handles:
  - `PilotPositionMessage` and `PlanePositionMessage`, including the packed pitch/bank/heading word and the on-ground bit;
  - `WeatherDataMessage`;
  - `DeletePlaneMessage`.
  Each kind has its constructors' checks and its serialisation.
- **The message visitor**: a hand-written tokenizer and decoder that stands in for the parse tree. The model proves that a serialised message decodes from its own line, within these limits:
  - a weather message comes back unchanged when its data holds no ':';
  - a deletion message comes back with its unknown field reset to 0, because the decoder does not read that field;
  - a pilot message comes back only when its altitude is a whole number of feet and its speed a whole number of knots, because serialising truncates both, and only for a number formatter and reader assumed to round-trip the coordinates;
  - plane-position messages have no decoder in the visitor, so they have no round trip.
- **The connection** (`Client`):
  - the send queue and its framing with CR LF;
  - the read buffer, which cuts the byte stream into lines;
  - the handling pass, which turns lines into messages;
  - the disconnect reasons and the shutdown order.
  Each runs as one sequential step of its loop.
- **The entities**: `FsdEntity`, with its stopwatch, its 10-second inactive flag, its 60-second timeout and its Updated/TimedOut events, and the position handlers of `FsdPilot` and `FsdPlane`.
- **`SessionManager`**: Load and Close of the single current session.
- **Data structures**: `SortedEnablingSet` (a sorted list whose enabled items come first, with a counter of enabled items), `PriorityCollection` (a list kept sorted by priority) and `BufferedAverageDouble` (a ring-buffer moving average).

Each method is specified by a pure step function. The properties of the source are proved as lemmas about those functions, and as the invariants the classes keep.

Exceptions become a `Result` whose failure carries the .NET exception class and its parameter name. A throwing constructor becomes a factory method (`NewX`) beside a constructor that requires the checked condition.

Where the code disagrees with its evident intent, the code as written is modelled and the discrepancy is shown (see "## Findings"). The rest of the model then uses the corrected definition.

## Model

| member | source | states |
|---|---|---|
| Floating.FloatingEqual | Salvac.Data/Utils.cs:22-34 | zero is equal only to zero, and with a tolerance of 0 or less the comparison is exact equality; the middle branch of the source is exact, because `epsilon * double.Epsilon` rounds to 0 for every tolerance the types use |
| Floating.FloatingEqualReflexive | Salvac.Data/Utils.cs:22-34 | every value is FloatingEqual to itself |
| Floating.FloatingEqualSymmetric | Salvac.Data/Utils.cs:22-34 | FloatingEqual does not depend on the order of its operands |
| Floating.FloatingEqualZeroIsExact | Salvac.Data/Utils.cs:22-34 | against zero, on either side, only zero itself is equal, whatever the tolerance |
| Floating.FloatingEqualRelative | Salvac.Data/Utils.cs:22-34 | two distinct non-zero values are equal exactly when their relative difference is below the tolerance |
| Numerals.FormatInteger | Salvac.Sessions.Fsd/Messages/PilotPositionMessage.cs:102-108 | the parameterless Int32.ToString writes an optional leading '-', present exactly for a negative value, followed by decimal digits |
| Numerals.LiteralValueOfFormat | Salvac.Sessions.Fsd/Messages/PilotPositionMessage.cs:102-108 | an integer written by ToString reads back as the same integer |
| Numerals.ParseInt32 | Salvac.Sessions.Fsd/Messages/MessageVisitor.cs:56-62 | int.Parse with NumberStyles.Integer skips white space (U+0009 to U+000D and the space) before and after the literal and trailing NUL characters, and accepts exactly a signed decimal literal in the Int32 range between them, returning its value; a malformed literal is a FormatException, one out of range an OverflowException |
| Numerals.ParseUInt32 | Salvac.Sessions.Fsd/Messages/MessageVisitor.cs:61 | uint.Parse with NumberStyles.Integer skips the same white space and accepts exactly a signed decimal literal in 0..2^32-1 between it, returning its value; otherwise FormatException or OverflowException |
| Numerals.ParseInt32OfFormat | Salvac.Sessions.Fsd/Messages/MessageVisitor.cs:56-62 | int.Parse reads back every Int32 ToString writes |
| Numerals.ParseUInt32OfFormat | Salvac.Sessions.Fsd/Messages/MessageVisitor.cs:61 | uint.Parse reads back every UInt32 ToString writes |
| Numerals.ParseInt32Padded | Salvac.Sessions.Fsd/Messages/MessageVisitor.cs:56-62 | white space around a written integer is skipped: int.Parse reads it as the integer, and uint.Parse too unless it is negative, which is an OverflowException |
| Numerals.ConvertToInt32Base8 | Salvac.Data/Types/Squawk.cs:41-58 | Convert.ToInt32(s, 8) accepts an optional '+' and octal digits worth less than 2^32 and yields their 32-bit pattern as an int; a leading '-' is an ArgumentException |
| Numerals.FormatOctal | Salvac.Data/Types/Squawk.cs:83-86 | Convert.ToString(v, 8) writes octal digits whose value is v |
| Numerals.Truncate | Salvac.Sessions.Fsd/Messages/PilotPositionMessage.cs:105-106 | the cast from double to int rounds toward zero |
| Numerals.TruncateToInt32 | Salvac.Sessions.Fsd/Messages/PilotPositionMessage.cs:105-106 | inside the Int32 range the cast is truncation toward zero |
| Numerals.RoundAwayFromZero | Salvac.Sessions.Fsd/Messages/PlanePositionMessage.cs:81-84 | the format "0" rounds to the nearest integer, halves away from zero |
| Numerals.FormatRounded | Salvac.Sessions.Fsd/Messages/PlanePositionMessage.cs:81-84 | ToString("0") writes at least one character, with a leading '-' exactly for a negative value |
| Numerals.LiteralValueOfFormatRounded | Salvac.Sessions.Fsd/Messages/PlanePositionMessage.cs:81-84 | the text the format "0" writes reads back as the rounded integer |
| Text.SplitJoin | Salvac.Sessions.Fsd/Messages/Message.cs:53-56 | splitting tokens joined by a separator none of them holds gives the tokens back |
| Text.TrimEnd | Salvac.Data/Types/Distance.cs:290 | TrimEnd keeps a prefix of the text, drops only white space, and leaves no trailing white space |
| Text.IndexOfCrLf | Salvac.Sessions.Fsd/Client.cs:195-200 | the first "\r\n" is found, or -1 exactly when there is none |
| Sorting.SortBySorted | Salvac/PriorityCollection.cs:48 | sorting yields a permutation of its input ordered by the comparison |
| Sorting.SortBySortedIsIdentity | Salvac/PriorityCollection.cs:48 | sorting a list already in order leaves it unchanged |
| Sorting.SortedRemove | Salvac/PriorityCollection.cs:78-81 | removing one element keeps a sorted list sorted |
| PriorityCollections.ByPriorityTotalPreorder | Salvac/PriorityCollection.cs:48 | the comparison by descending priority is a total preorder, so the sort is well defined |
| PriorityCollections.IndexOf | Salvac/PriorityCollection.cs:78-81 | the first index of the item, or -1 exactly when it is absent |
| PriorityCollections.PriorityCollection.constructor | Salvac/PriorityCollection.cs:35-39 | a new collection is empty and keeps the priority selector |
| PriorityCollections.PriorityCollection.Count | Salvac/PriorityCollection.cs:28-29 | Count is the number of items held |
| PriorityCollections.PriorityCollection.Contains | Salvac/PriorityCollection.cs:67-70 | Contains holds exactly when some item held equals the argument |
| PriorityCollections.PriorityCollection.AddRange | Salvac/PriorityCollection.cs:42-49 | a null list throws ArgumentNullException("items") and a list holding a null throws too, both without change; otherwise the list is the old list plus every new item, duplicates kept, sorted by non-increasing priority |
| PriorityCollections.PriorityCollection.Add | Salvac/PriorityCollection.cs:56-59 | one item is added, keeping the order; a null item throws without change |
| PriorityCollections.PriorityCollection.Clear | Salvac/PriorityCollection.cs:62-65 | the collection is emptied |
| PriorityCollections.PriorityCollection.Remove | Salvac/PriorityCollection.cs:78-81 | the first occurrence is removed and true returned exactly when the item was held; otherwise nothing changes; the order is kept |
| PriorityCollections.SortedByPriority | Salvac/PriorityCollection.cs:48 | after any change, items come out by non-increasing priority |
| Squawks.New | Salvac.Data/Types/Squawk.cs:34-38 | a code is accepted exactly when it lies in 0..0xFFF and is stored unchanged; anything else throws ArgumentOutOfRangeException |
| Squawks.Parse | Salvac.Data/Types/Squawk.cs:41-58 | an empty input throws ArgumentNullException("input"); every other failure is an ArgumentException or the OverflowException of the conversion |
| Squawks.ParseAccepts | Salvac.Data/Types/Squawk.cs:41-58 | Parse succeeds exactly on an optional '+' followed by octal digits worth at most 0xFFF, and then yields that octal value |
| Squawks.ToString | Salvac.Data/Types/Squawk.cs:83-86 | the text is four octal digits whose value is the code |
| Squawks.ParseToString | Salvac.Data/Types/Squawk.cs:41-86 | parsing the printed code gives back the same squawk |
| Squawks.ParseOctalDigits | Salvac.Data/Types/Squawk.cs:41-58 | a non-empty string of octal digits worth at most 0xFFF parses to that value |
| Squawks.WellKnownCodes | Salvac.Data/Types/Squawk.cs:24-26 | Emergency, ComFail and HiJack print as 7700, 7600 and 7500 |
| Squawks.ParseExamples | Salvac.Sessions.Fsd.Tests/MessageParseTests.cs:53-82 | the squawks of the accepted test messages ("1200", "741", "7700") parse to their octal values |
| Squawks.ParseRejections | Salvac.Sessions.Fsd.Tests/MessageParseTests.cs:130-136 | "7800", "-0000" and "77775" are rejected with ArgumentException, and "" with ArgumentNullException |
| Squawks.RejectNonOctal | Salvac.Data/Types/Squawk.cs:54-57 | a non-octal digit is a FormatException re-thrown as ArgumentException |
| Squawks.RejectOutOfRange | Salvac.Data/Types/Squawk.cs:50-53 | an octal value above 0xFFF is re-thrown as ArgumentException |
| Squawks.CompareTo | Salvac.Data/Types/Squawk.cs:61-64 | the result is -1, 0 or 1 and its sign is the order of the codes |
| Squawks.CompareToConsistent | Salvac.Data/Types/Squawk.cs:61-69 | CompareTo is 0 exactly when Equals holds, which is equality of the codes, and CompareTo is antisymmetric |
| Distances.MinUnit | Salvac.Data/Types/Distance.cs:169 | the unit arithmetic and comparison use is one of the two operands' units, the one with the smaller enum index |
| Distances.AsMeters | Salvac.Data/Types/Distance.cs:52-67 | a distance in metres reads back its own value |
| Distances.AsNauticalMiles | Salvac.Data/Types/Distance.cs:69-84 | a distance in nautical miles reads back its own value |
| Distances.AsKilometers | Salvac.Data/Types/Distance.cs:86-101 | a distance in kilometres reads back its own value |
| Distances.AsFeet | Salvac.Data/Types/Distance.cs:103-119 | a distance in feet reads back its own value |
| Distances.AsUnit | Salvac.Data/Types/Distance.cs:121-136 | in the distance's own unit the value is the stored value |
| Distances.ToUnit | Salvac.Data/Types/Distance.cs:325-359 | the result is in the requested unit, and converting to the distance's own unit changes nothing |
| Distances.Convert | Salvac.Data/Types/Distance.cs:385-388 | converting between a unit and itself keeps the value |
| Distances.FromFeet | Salvac.Data/Types/Distance.cs:378-381 | the distance is in feet and reads back the given value in feet |
| Distances.FromMeters | Salvac.Data/Types/Distance.cs:363-366 | the distance is in metres and reads back the given value in metres |
| Distances.FromKilometers | Salvac.Data/Types/Distance.cs:373-376 | the distance is in kilometres and reads back the given value in kilometres |
| Distances.FromNauticalMiles | Salvac.Data/Types/Distance.cs:368-371 | the distance is in nautical miles and reads back the given value in nautical miles |
| Distances.Add | Salvac.Data/Types/Distance.cs:214-218 | the sum is in the operands' smaller-index unit and is the sum of both operands read in that unit |
| Distances.Sub | Salvac.Data/Types/Distance.cs:220-224 | the difference is in the operands' smaller-index unit and is the difference of both operands read in that unit |
| Distances.Neg | Salvac.Data/Types/Distance.cs:226-229 | negation keeps the unit and negates the value |
| Distances.Scale | Salvac.Data/Types/Distance.cs:231-239 | multiplication by a number keeps the unit and scales the value |
| Distances.Div | Salvac.Data/Types/Distance.cs:241-244 | division by a non-zero number keeps the unit, and multiplying the result back gives the value |
| Distances.AddSubSameUnit | Salvac.Data/Types/Distance.cs:214-224 | distances of one unit add and subtract in that unit, and subtracting what was added gives the first operand back |
| Distances.ConversionIsLinear | Salvac.Data/Types/Distance.cs:121-136 | reading a negated or scaled distance in any unit negates or scales the reading |
| Distances.CompareTo | Salvac.Data/Types/Distance.cs:203-208 | the result is -1, 0 or 1; 0 exactly when == holds, -1 exactly when this distance is the greater |
| Distances.Eq | Salvac.Data/Types/Distance.cs:169-173 | between two values of one unit, == is FloatingEqual of the stored values with tolerance 1e-5; every value is == to itself |
| Distances.Less | Salvac.Data/Types/Distance.cs:186-190 | `<` compares the readings in the smaller unit; in one unit it is `<` on the values |
| Distances.Greater | Salvac.Data/Types/Distance.cs:180-184 | `>` holds exactly when `<` holds with the operands swapped, and never together with `<` |
| Distances.LessOrEqual | Salvac.Data/Types/Distance.cs:197-200 | `<=` is `<` or `==`; in one unit it is `<` or FloatingEqual on the values; whenever it fails, `>` holds |
| Distances.GreaterOrEqual | Salvac.Data/Types/Distance.cs:192-195 | `>=` holds exactly when `<=` holds with the operands swapped |
| Distances.EqSymmetric | Salvac.Data/Types/Distance.cs:169-173 | == is symmetric |
| Distances.CompareToReversed | Salvac.Data/Types/Distance.cs:203-208 | a distance greater than another compares as -1 against it, and the smaller as +1: the order is reversed |
| Distances.EqualsIsIdentity | Salvac.Data/Types/Distance.cs:391-394 | Equals holds exactly for the same value in the same unit, and then == holds and CompareTo is 0 |
| Distances.EqualsIsStricterThanEq | Salvac.Data/Types/Distance.cs:169-173 | one nautical mile and 1852 m are equal under == but not under Equals |
| Distances.GetUnitDesignator | Salvac.Data/Types/Distance.cs:307-320 | every designator is non-empty and ends in a letter |
| Distances.TryParseUnit | Salvac.Data/Types/Distance.cs:288-304 | the member with the source's name models the corrected search, longest designator first: a unit is found only when its designator ends the trimmed input, ignoring case, and the number text is then a prefix of the input that leaves room for the designator (corrected designator order; see ## Findings) |
| Distances.FirstDesignatorMatch | Salvac.Data/Types/Distance.cs:288-304 | a match names a unit whose designator ends the text, ignoring case, and gives the text with that designator removed |
| Distances.TryParseUnitAsWritten | Salvac.Data/Types/Distance.cs:288-304 | the search as written, in enum order: a unit is found only when its designator ends the trimmed input, ignoring case, and the number text is then a prefix of the input |
| Distances.TryParseUnitAsWrittenNeverKilometers | Salvac.Data/Types/Distance.cs:288-304 | as written, the unit read is only ever feet or metres |
| Distances.TryParseUnitAsWrittenExamples | Salvac.Data/Types/Distance.cs:288-304 | as written, "5km" and "5nm" are read as "5k" and "5n" metres |
| Distances.ReadAsMeters | Salvac.Data/Types/Distance.cs:288-304 | as written, a text ending in a letter other than f or F followed by "m" is read as that text in metres |
| Distances.TryParseUnitDesignator | Salvac.Data/Types/Distance.cs:288-304 | with the designators tried longest first, a number text followed by any unit's designator yields that unit and the number text |
| Distances.NoEarlierDesignator | Salvac.Data/Types/Distance.cs:288-304 | no designator tried before a unit's own ends a text that ends in that unit's designator |
| Distances.TryParse | Salvac.Data/Types/Distance.cs:255-270 | an empty input throws ArgumentNullException("input"); a parsed distance has the unit whose designator ends the input and the number read from the rest (corrected designator order; see ## Findings) |
| Distances.Parse | Salvac.Data/Types/Distance.cs:272-286 | Parse succeeds exactly when TryParse finds a distance, with that distance; a non-empty input that does not parse throws ArgumentException (corrected designator order; see ## Findings) |
| Distances.ParseWithDesignator | Salvac.Data/Types/Distance.cs:272-286 | a number text followed by a designator parses to that number in that unit (corrected designator order; see ## Findings) |
| Speeds.MinUnit | Salvac.Data/Types/Speed.cs:126-130 | the unit arithmetic and comparison use is one of the two operands' units, the one with the smaller enum index |
| Speeds.AsKilometersPerHour | Salvac.Data/Types/Speed.cs:30-44 | a speed in km/h reads back its own value |
| Speeds.AsMetersPerSecond | Salvac.Data/Types/Speed.cs:46-60 | a speed in m/s reads back its own value |
| Speeds.AsKnots | Salvac.Data/Types/Speed.cs:62-77 | a speed in knots reads back its own value |
| Speeds.AsUnit | Salvac.Data/Types/Speed.cs:79-94 | in the speed's own unit the value is the stored value |
| Speeds.ToUnit | Salvac.Data/Types/Speed.cs:281-308 | the result is in the requested unit, and converting to the speed's own unit changes nothing |
| Speeds.Convert | Salvac.Data/Types/Speed.cs:330-333 | converting between a unit and itself keeps the value |
| Speeds.FromKilometersPerHour | Salvac.Data/Types/Speed.cs:313-316 | the speed is in km/h and reads back the given value |
| Speeds.FromKnots | Salvac.Data/Types/Speed.cs:318-321 | the speed is in knots and reads back the given value |
| Speeds.FromMetersPerSecond | Salvac.Data/Types/Speed.cs:323-326 | the speed is in m/s and reads back the given value |
| Speeds.Add | Salvac.Data/Types/Speed.cs:171-175 | the sum is in the operands' smaller-index unit and is the sum of both operands read in that unit |
| Speeds.Sub | Salvac.Data/Types/Speed.cs:177-181 | the difference is in the operands' smaller-index unit and is the difference of both operands read in that unit |
| Speeds.Neg | Salvac.Data/Types/Speed.cs:183-186 | negation keeps the unit and negates the value |
| Speeds.Scale | Salvac.Data/Types/Speed.cs:188-196 | multiplication by a number keeps the unit and scales the value |
| Speeds.Div | Salvac.Data/Types/Speed.cs:198-201 | division by a non-zero number keeps the unit, and multiplying the result back gives the value |
| Speeds.AddSubSameUnit | Salvac.Data/Types/Speed.cs:171-181 | speeds of one unit add and subtract in that unit, and subtracting what was added gives the first operand back |
| Speeds.ConversionIsLinear | Salvac.Data/Types/Speed.cs:79-94 | reading a negated or scaled speed in any unit negates or scales the reading |
| Speeds.CompareTo | Salvac.Data/Types/Speed.cs:160-165 | the result is -1, 0 or 1; 0 exactly when == holds, -1 exactly when this speed is the greater |
| Speeds.Eq | Salvac.Data/Types/Speed.cs:126-130 | between two values of one unit, == is FloatingEqual of the stored values with tolerance 1e-10; every value is == to itself |
| Speeds.Less | Salvac.Data/Types/Speed.cs:143-147 | `<` compares the readings in the smaller unit; in one unit it is `<` on the values |
| Speeds.Greater | Salvac.Data/Types/Speed.cs:137-141 | `>` holds exactly when `<` holds with the operands swapped, and never together with `<` |
| Speeds.LessOrEqual | Salvac.Data/Types/Speed.cs:154-157 | `<=` is `<` or `==`; in one unit it is `<` or FloatingEqual on the values; whenever it fails, `>` holds |
| Speeds.GreaterOrEqual | Salvac.Data/Types/Speed.cs:149-152 | `>=` holds exactly when `<=` holds with the operands swapped |
| Speeds.EqSymmetric | Salvac.Data/Types/Speed.cs:126-130 | == is symmetric |
| Speeds.CompareToReversed | Salvac.Data/Types/Speed.cs:160-165 | a speed greater than another compares as -1 against it, and the smaller as +1 |
| Speeds.EqualsIsIdentity | Salvac.Data/Types/Speed.cs:336-339 | Equals holds exactly for the same value in the same unit, and then == holds and CompareTo is 0 |
| Speeds.GetUnitDesignator | Salvac.Data/Types/Speed.cs:264-274 | every designator has at least two characters and ends in a letter |
| Speeds.TryParseUnit | Salvac.Data/Types/Speed.cs:244-260 | a unit is found only when its designator ends the trimmed input, ignoring case, and the number text is then a prefix of the input that leaves room for the designator |
| Speeds.FirstDesignatorMatch | Salvac.Data/Types/Speed.cs:244-260 | a match names a unit whose designator ends the text, ignoring case, with the designator removed; there is no match exactly when no designator ends the text |
| Speeds.FirstMatchAt | Salvac.Data/Types/Speed.cs:244-260 | the first unit, in enum order, whose designator ends the text is the one found |
| Speeds.NoEarlierDesignator | Salvac.Data/Types/Speed.cs:244-260 | no designator tried before a unit's own ends a text that ends in that unit's designator |
| Speeds.TryParseUnitDesignator | Salvac.Data/Types/Speed.cs:244-260 | a text followed by any unit's designator yields that unit and the text: in enum order every speed unit is reachable |
| Speeds.TryParse | Salvac.Data/Types/Speed.cs:212-227 | an empty input throws ArgumentNullException("input"); a parsed speed has the unit whose designator ends the input and the number read from the rest |
| Speeds.Parse | Salvac.Data/Types/Speed.cs:229-242 | Parse succeeds exactly when TryParse finds a speed, with that speed; a non-empty input that does not parse throws ArgumentException |
| Speeds.ParseWithDesignator | Salvac.Data/Types/Speed.cs:229-242 | a number text followed by a designator parses to that number in that unit |
| Pressures.MinUnit | Salvac.Data/Types/Pressure.cs:118-122 | the unit arithmetic and comparison use is one of the two operands' units, the one with the smaller enum index |
| Pressures.AsHectoPascals | Salvac.Data/Types/Pressure.cs:41-54 | a pressure in hPa reads back its own value |
| Pressures.AsInchHg | Salvac.Data/Types/Pressure.cs:56-70 | a pressure in inHg reads back its own value |
| Pressures.AsUnit | Salvac.Data/Types/Pressure.cs:72-86 | in the pressure's own unit the value is the stored value |
| Pressures.ToUnit | Salvac.Data/Types/Pressure.cs:272-293 | the result is in the requested unit, and converting to the pressure's own unit changes nothing |
| Pressures.Convert | Salvac.Data/Types/Pressure.cs:310-313 | converting between a unit and itself keeps the value |
| Pressures.FromHectoPascals | Salvac.Data/Types/Pressure.cs:298-301 | the pressure is in hPa and reads back the given value |
| Pressures.FromInchHg | Salvac.Data/Types/Pressure.cs:303-306 | the pressure is in inHg and reads back the given value |
| Pressures.StandardPressure | Salvac.Data/Types/Pressure.cs:30-35 | the standard pressure reads 1013.25 hPa and between 29.92 and 29.93 inHg |
| Pressures.Add | Salvac.Data/Types/Pressure.cs:163-167 | the sum is in the operands' smaller-index unit and is the sum of both operands read in that unit |
| Pressures.Sub | Salvac.Data/Types/Pressure.cs:169-173 | the difference is in the operands' smaller-index unit and is the difference of both operands read in that unit |
| Pressures.Neg | Salvac.Data/Types/Pressure.cs:175-178 | negation keeps the unit and negates the value |
| Pressures.Scale | Salvac.Data/Types/Pressure.cs:180-188 | multiplication by a number keeps the unit and scales the value |
| Pressures.Div | Salvac.Data/Types/Pressure.cs:190-193 | division by a non-zero number keeps the unit, and multiplying the result back gives the value |
| Pressures.AddSubSameUnit | Salvac.Data/Types/Pressure.cs:163-173 | pressures of one unit add and subtract in that unit, and subtracting what was added gives the first operand back |
| Pressures.ConversionIsLinear | Salvac.Data/Types/Pressure.cs:72-86 | reading a negated or scaled pressure in any unit negates or scales the reading |
| Pressures.CompareTo | Salvac.Data/Types/Pressure.cs:152-157 | the result is -1, 0 or 1; 0 exactly when == holds, -1 exactly when this pressure is the greater |
| Pressures.Eq | Salvac.Data/Types/Pressure.cs:118-122 | between two values of one unit, == is FloatingEqual of the stored values with tolerance 1e-5; every value is == to itself |
| Pressures.Less | Salvac.Data/Types/Pressure.cs:135-139 | `<` compares the readings in the smaller unit; in one unit it is `<` on the values |
| Pressures.Greater | Salvac.Data/Types/Pressure.cs:129-133 | `>` holds exactly when `<` holds with the operands swapped, and never together with `<` |
| Pressures.LessOrEqual | Salvac.Data/Types/Pressure.cs:146-149 | `<=` is `<` or `==`; in one unit it is `<` or FloatingEqual on the values; whenever it fails, `>` holds |
| Pressures.GreaterOrEqual | Salvac.Data/Types/Pressure.cs:141-144 | `>=` holds exactly when `<=` holds with the operands swapped |
| Pressures.EqSymmetric | Salvac.Data/Types/Pressure.cs:118-122 | == is symmetric |
| Pressures.CompareToReversed | Salvac.Data/Types/Pressure.cs:152-157 | a pressure greater than another compares as -1 against it, and the smaller as +1 |
| Pressures.EqualsIsIdentity | Salvac.Data/Types/Pressure.cs:316-319 | Equals holds exactly for the same value in the same unit, and then == holds and CompareTo is 0 |
| Pressures.GetUnitDesignator | Salvac.Data/Types/Pressure.cs:256-266 | every designator has at least three characters and ends in a letter |
| Pressures.TryParseUnit | Salvac.Data/Types/Pressure.cs:237-252 | a unit is found only when its designator ends the trimmed input, ignoring case, and the number text is then a prefix of the input that leaves room for the designator |
| Pressures.FirstDesignatorMatch | Salvac.Data/Types/Pressure.cs:237-252 | a match names a unit whose designator ends the text, ignoring case, with the designator removed; there is no match exactly when no designator ends the text |
| Pressures.TryParseUnitDesignator | Salvac.Data/Types/Pressure.cs:237-252 | a text followed by either unit's designator yields that unit and the text |
| Pressures.TryParse | Salvac.Data/Types/Pressure.cs:204-219 | an empty input throws ArgumentNullException("input"); a parsed pressure has the unit whose designator ends the input and the number read from the rest |
| Pressures.Parse | Salvac.Data/Types/Pressure.cs:221-234 | Parse succeeds exactly when TryParse finds a pressure, with that pressure; a non-empty input that does not parse throws ArgumentException |
| Pressures.ParseWithDesignator | Salvac.Data/Types/Pressure.cs:221-234 | a number text followed by a designator parses to that number in that unit |
| Angles.Remainder360 | Salvac.Data/Types/Angle.cs:47 | the remainder of a division by 360 truncated toward zero lies in [0, 360) for a non-negative bearing and in (-360, 0] for a negative one |
| Angles.Normalize | Salvac.Data/Types/Angle.cs:41-52 | the normalised bearing is the bearing minus the whole turns below it, so it lies in [0, 360) |
| Angles.FromDegrees | Salvac.Data/Types/Angle.cs:54-59 | a bearing already in [0, 360) is kept |
| Angles.FromDegreesNegative | Salvac.Data/Types/Angle.cs:41-52 | -90 degrees is West, and -360 and 720 degrees are North |
| Angles.FromDegreesPeriodic | Salvac.Data/Types/Angle.cs:41-59 | bearings a full turn apart give the same angle |
| Angles.NormalizeIdempotent | Salvac.Data/Types/Angle.cs:41-52 | normalising an angle's own degrees gives the angle back |
| Angles.Add | Salvac.Data/Types/Angle.cs:71-74 | the sum is the sum of the bearings, less 360 when it reaches a full turn |
| Angles.Sub | Salvac.Data/Types/Angle.cs:76-79 | the difference is the difference of the bearings, plus 360 when it is negative |
| Angles.Scale | Salvac.Data/Types/Angle.cs:81-89 | a product inside [0, 360) is kept, and scaling by 1 keeps the angle |
| Angles.Div | Salvac.Data/Types/Angle.cs:91-94 | dividing by zero throws ArgumentOutOfRangeException("degrees") and nothing else does; dividing by at least 1 divides the bearing |
| Angles.AddSubInverse | Salvac.Data/Types/Angle.cs:71-79 | turning by an angle and back returns to the start, and East plus South plus East is North |
| Frequencies.New | Salvac.Data/Types/Frequency.cs:66-70 | a frequency is built exactly from a positive value, and reads that value back in MHz; otherwise an ArgumentException |
| Frequencies.IsUhf | Salvac.Data/Types/Frequency.cs:37-38 | a UHF frequency lies in neither the HF nor the VHF range |
| Frequencies.IsVhf | Salvac.Data/Types/Frequency.cs:34-35 | a VHF frequency is not UHF |
| Frequencies.IsHf | Salvac.Data/Types/Frequency.cs:31-32 | an HF frequency is neither VHF nor UHF |
| Frequencies.IsVor | Salvac.Data/Types/Frequency.cs:46-47 | a VOR frequency is VHF |
| Frequencies.IsAtc | Salvac.Data/Types/Frequency.cs:40-41 | an ATC frequency is VHF, and it is also a VOR frequency exactly at 117.975 MHz |
| Frequencies.IsDme | Salvac.Data/Types/Frequency.cs:43-44 | a DME frequency is UHF |
| Frequencies.IsLocalizer | Salvac.Data/Types/Frequency.cs:49-50 | a localizer frequency is a VOR frequency and not an ATC one |
| Frequencies.IsGlideslope | Salvac.Data/Types/Frequency.cs:52-53 | a glideslope frequency is UHF and not DME |
| Frequencies.IsMarker | Salvac.Data/Types/Frequency.cs:55-56 | a marker frequency is VHF and neither VOR nor ATC |
| Frequencies.IsNdb | Salvac.Data/Types/Frequency.cs:58-59 | an NDB frequency is not HF; it is VHF or UHF |
| Frequencies.IsTacan | Salvac.Data/Types/Frequency.cs:61-62 | TACAN and DME cover the same frequencies |
| Frequencies.BandsDisjoint | Salvac.Data/Types/Frequency.cs:31-38 | no frequency is in two of the HF, VHF and UHF bands |
| Frequencies.NavigationBands | Salvac.Data/Types/Frequency.cs:40-62 | DME and TACAN share their range, a localizer frequency is a VHF VOR frequency, ATC and VOR meet only at 117.975 MHz, marker, VOR and ATC lie in VHF, glideslope and DME in UHF |
| Frequencies.EqualsAndEq | Salvac.Data/Types/Frequency.cs:73-95 | Equals is identity and implies the tolerant ==, which also admits 118.0001 MHz against 118 MHz |
| FsdMessages.IsValidFsdName | Salvac.Sessions.Fsd/Messages/Message.cs:61-65 | a valid name is non-empty, holds no ':' and does not start with a digit |
| FsdMessages.NameExamples | Salvac.Sessions.Fsd/Messages/Message.cs:61-65 | "4D", "5T" and "" are not FSD names; "TEST123", "A" and "AAA" are |
| FsdMessages.ValidNameHasNoSeparator | Salvac.Sessions.Fsd/Messages/Message.cs:61-65 | a valid FSD name never contains the ':' separator |
| FsdMessages.NewHeader | Salvac.Sessions.Fsd/Messages/Message.cs:42-51 | the header is accepted exactly when the type is non-empty, the source a valid name and the destination empty or a valid name, and then stores the three unchanged; each failure is the exception the constructor throws, in the order it checks |
| FsdMessages.IsBroadcast | Salvac.Sessions.Fsd/Messages/Message.cs:38-39 | for a valid header, the message is a broadcast exactly when its destination is not a valid name, that is when it is empty |
| FsdMessages.Decompose | Salvac.Sessions.Fsd/Messages/Message.cs:53-56 | the wire text starts with the type and ends with "\r\n" |
| FsdMessages.DecomposeTwo | Salvac.Sessions.Fsd/Messages/Message.cs:53-56 | a two-token message is written type + a + ':' + b + "\r\n" |
| FsdMessages.DecomposeFour | Salvac.Sessions.Fsd/Messages/Message.cs:53-56 | a four-token message is written with its tokens separated by ':' after the type and before "\r\n" |
| FsdMessages.DecomposeSplits | Salvac.Sessions.Fsd/Messages/Message.cs:53-56 | when no token holds ':', splitting the text between type and terminator at ':' gives the tokens back |
| PilotPositionMessages.ModeValue | Salvac.Sessions.Fsd/Messages/PilotPositionMessage.cs:25-33 | every mode's value lies in First..Last, that is 0..2 |
| PilotPositionMessages.ModeOfValue | Salvac.Sessions.Fsd/Messages/PilotPositionMessage.cs:25-33 | a value names a mode exactly when it lies in 0..2, and then the mode has that value |
| PilotPositionMessages.ModeToken | Salvac.Sessions.Fsd/Messages/PilotPositionMessage.cs:94-99 | every mode is written as one letter that is not the separator |
| PilotPositionMessages.ModeTokenInjective | Salvac.Sessions.Fsd/Messages/PilotPositionMessage.cs:94-99 | two modes are written with the same letter exactly when they are the same mode |
| PilotPositionMessages.New | Salvac.Sessions.Fsd/Messages/PilotPositionMessage.cs:75-90 | the message is built exactly when the source is a valid name, the mode value is in range and the rating in FS1..ShowAdministrator; it is then a broadcast "@" message holding every argument unchanged; otherwise the exception names source, squawkMode or rating, checked in that order |
| PilotPositionMessages.OnGround | Salvac.Sessions.Fsd/Messages/PilotPositionMessage.cs:60-69 | on a little-endian host, on the ground exactly when the word modulo 4 is 2 or 3, that is when its bit 0x2 is set |
| PilotPositionMessages.OnGroundExamples | Salvac.Sessions.Fsd/Messages/PilotPositionMessage.cs:60-69 | on a little-endian host the pitch/bank/heading word 1073741826 reads as on the ground and 1077591040 as airborne |
| PilotPositionMessages.GetTokens | Salvac.Sessions.Fsd/Messages/PilotPositionMessage.cs:92-109 | a pilot message is written as exactly ten tokens |
| PilotPositionMessages.Decompose | Salvac.Sessions.Fsd/Messages/Message.cs:53-56 | the wire text starts with the kind's type tag and ends with "\r\n" |
| PilotPositionMessages.IntegerHasNoSeparator | Salvac.Sessions.Fsd/Messages/PilotPositionMessage.cs:102-108 | an integer written in decimal never contains ':' |
| PilotPositionMessages.SquawkHasNoSeparator | Salvac.Sessions.Fsd/Messages/PilotPositionMessage.cs:101 | a squawk written in octal never contains ':' |
| PilotPositionMessages.TokensHaveNoSeparator | Salvac.Sessions.Fsd/Messages/PilotPositionMessage.cs:92-109 | when the coordinates are written without ':', no token of a valid pilot message contains the separator, so the wire text splits back into its tokens |
| PlanePositions.Copy | Salvac/Sessions/PlanePosition.cs:80-88 | the copy constructor yields a value equal to the original in all six fields |
| PlanePositions.EqualsProperties | Salvac/Sessions/PlanePosition.cs:91-98 | Equals is reflexive and symmetric and ignores the true heading |
| PlanePositions.EqualsObject | Salvac/Sessions/PlanePosition.cs:100-105 | null and objects of other types are never equal; a boxed position is equal exactly when Equals(PlanePosition) holds |
| PlanePositionMessages.New | Salvac.Sessions.Fsd/Messages/PlanePositionMessage.cs:55-66 | the message is built exactly when the source is a valid name and the mode value lies in First..Last; the rating is not checked; it is then a broadcast "@" message holding every argument unchanged; otherwise the exception names source or squawkMode |
| PlanePositionMessages.SetPosition | Salvac.Sessions.Fsd/Messages/PlanePositionMessage.cs:48-49 | the public Position setter replaces the position, keeps every other property and keeps the message valid |
| PlanePositionMessages.GetTokens | Salvac.Sessions.Fsd/Messages/PlanePositionMessage.cs:68-85 | a plane message is written as exactly ten tokens |
| PlanePositionMessages.Decompose | Salvac.Sessions.Fsd/Messages/Message.cs:53-56 | the wire text starts with the kind's type tag and ends with "\r\n" |
| PlanePositionMessages.TokenValues | Salvac.Sessions.Fsd/Messages/PlanePositionMessage.cs:68-85 | the tokens decode to the mode, latitude before longitude, the rating and the pitch/bank/heading word exactly, and elevation, ground speed and pressure altitude above elevation each to an integer within half a unit of the exact value |
| PlanePositionMessages.RoundedHasNoSeparator | Salvac.Sessions.Fsd/Messages/PlanePositionMessage.cs:81-84 | a value written with the format "0" never contains ':' |
| PlanePositionMessages.TokensHaveNoSeparator | Salvac.Sessions.Fsd/Messages/PlanePositionMessage.cs:68-85 | when the coordinates are written without ':', no token of a valid plane message contains the separator |
| WeatherDataMessages.RequestValue | Salvac.Sessions.Fsd/Messages/WeatherDataMessage.cs:22-30 | every request type's value lies in First..Last, that is 0..2 |
| WeatherDataMessages.RequestOfValue | Salvac.Sessions.Fsd/Messages/WeatherDataMessage.cs:22-30 | a value names a request type exactly when it lies in 0..2, and then the type has that value |
| WeatherDataMessages.New | Salvac.Sessions.Fsd/Messages/WeatherDataMessage.cs:43-52 | the message is built exactly when source and destination are valid names, the request value lies in Metar..ShortTaf and the data is non-empty, and then holds them unchanged; otherwise the exception is the one for the first failing check: source, destination (missing, then invalid), requestType, data |
| WeatherDataMessages.NeverBroadcast | Salvac.Sessions.Fsd/Messages/WeatherDataMessage.cs:46 | a constructed weather message always has a destination |
| WeatherDataMessages.RejectedExamples | Salvac.Sessions.Fsd.Tests/MessageParseTests.cs:167-190 | a missing destination, request type 4, missing data and the source "5T" are refused with the constructor's exceptions |
| WeatherDataMessages.GetTokens | Salvac.Sessions.Fsd/Messages/WeatherDataMessage.cs:55-61 | a weather message is written as exactly four tokens |
| WeatherDataMessages.Decompose | Salvac.Sessions.Fsd/Messages/Message.cs:53-56 | the wire text starts with the kind's type tag and ends with "\r\n" |
| WeatherDataMessages.ExampleMessage | Salvac.Sessions.Fsd.Tests/MessageParseTests.cs:145-151 | "AAA" asking "BBB" for the METAR "DATA" is a valid message |
| WeatherDataMessages.DecomposeExample | Salvac.Sessions.Fsd.Tests/MessageParseTests.cs:145 | that message is written "&DAAA:BBB:0:DATA\r\n" |
| WeatherDataMessages.TokensHaveNoSeparator | Salvac.Sessions.Fsd/Messages/WeatherDataMessage.cs:55-61 | when the data holds no ':', no token of a valid weather message contains the separator |
| DeleteMessages.TypeOf | Salvac.Sessions.Fsd/Messages/DeletePlaneMessage.cs:24 | both deletion tags are three characters starting with "#D" |
| DeleteMessages.New | Salvac.Sessions.Fsd/Messages/DeletePlaneMessage.cs:30-34 | the message is built exactly when the source is a valid name; it is then a broadcast holding the kind, source and unknown field unchanged; otherwise the exception names source |
| DeleteMessages.NewDefault | Salvac.Sessions.Fsd/Messages/DeletePlaneMessage.cs:30 | when the unknown field is omitted it is 0 |
| DeleteMessages.GetTokens | Salvac.Sessions.Fsd/Messages/DeletePlaneMessage.cs:36-40 | a deletion message is written as exactly two tokens |
| DeleteMessages.Decompose | Salvac.Sessions.Fsd/Messages/Message.cs:53-56 | the wire text starts with the kind's type tag and ends with "\r\n" |
| DeleteMessages.DecomposeShape | Salvac.Sessions.Fsd/Messages/DeletePlaneMessage.cs:36-40 | the wire text is the tag, the source, ':', the unknown field in decimal and the terminator, and that number reads back as the field |
| DeleteMessages.Examples | Salvac.Sessions.Fsd.Tests/MessageParseTests.cs:197-213 | the source "4D" is refused and "TEST123" with 45789 gives a broadcast deletion |
| DeleteMessages.DecomposeExample | Salvac.Sessions.Fsd.Tests/MessageParseTests.cs:199 | that message is written "#DPTEST123:45789\r\n" |
| DeleteMessages.TokensHaveNoSeparator | Salvac.Sessions.Fsd/Messages/DeletePlaneMessage.cs:36-40 | no token of a valid deletion message contains the separator |
| MessageVisitors.DecodeSquawkMode | Salvac.Sessions.Fsd/Messages/MessageVisitor.cs:45-52 | the letter is accepted exactly when its upper-case form is N, S or Y, and then names the mode written with that letter; anything else is an invalid-message error |
| MessageVisitors.DecodeModeToken | Salvac.Sessions.Fsd/Messages/MessageVisitor.cs:45-52 | decoding the letter the encoder writes for a mode gives that mode back |
| MessageVisitors.DecodeSquawkModeExamples | Salvac.Sessions.Fsd.Tests/MessageParseTests.cs:119-124 | "n" and "y" are accepted; "B", "5" and the empty token are refused |
| MessageVisitors.DecodeSquawk | Salvac.Sessions.Fsd/Messages/MessageVisitor.cs:53-55 | the squawk token is accepted exactly when Squawk.Parse accepts it, with the same value; a refusal is an invalid-message error, or the overflow that is not caught |
| MessageVisitors.DecodeSquawkRejections | Salvac.Sessions.Fsd.Tests/MessageParseTests.cs:130-136 | the squawk tokens "7800", "-0000", "77775" and "" are invalid-message errors |
| MessageVisitors.DecodeDouble | Salvac.Sessions.Fsd/Messages/MessageVisitor.cs:57-58 | a coordinate token is accepted exactly when the number reader reads it, with that value; otherwise a FormatException |
| MessageVisitors.DecodePilotPosition | Salvac.Sessions.Fsd/Messages/MessageVisitor.cs:43-67 | a mode or squawk failure is passed on first; a decoded pilot message is valid, comes from the source token, and each field reads back from its token: mode letter, octal squawk, rating, X from the longitude and Y from the latitude, altitude in feet, speed in knots, pitch/bank/heading word and altitude difference |
| MessageVisitors.DecodeWeatherData | Salvac.Sessions.Fsd/Messages/MessageVisitor.cs:69-74 | the weather message is built exactly when the request token is an Int32 and the constructor accepts the tokens; it then holds source, destination, data and the request value unchanged; a malformed request token is the number reader's exception |
| MessageVisitors.DecodeDelete | Salvac.Sessions.Fsd/Messages/MessageVisitor.cs:76-86 | a deletion message is built exactly when the source is a valid name, with the kind's tag, no destination and the unknown field 0 |
| MessageVisitors.DecodeTree | Salvac.Sessions.Fsd/Messages/MessageVisitor.cs:37-86 | the decoded message has the kind of the tree it came from: pilot trees give pilot messages, weather trees weather messages, deletion trees deletions of the same kind, and no tree gives a plane message |
| MessageVisitors.MessageVisitor.constructor | Salvac.Sessions.Fsd/Messages/MessageVisitor.cs:31-34 | a new visitor holds no messages |
| MessageVisitors.MessageVisitor.Visit | Salvac.Sessions.Fsd/Messages/MessageVisitor.cs:37-41 | the list is cleared and then holds exactly the decoded message, or stays empty and the exception is passed on |
| MessageVisitors.MessageVisitor.VisitPilotPosition | Salvac.Sessions.Fsd/Messages/MessageVisitor.cs:43-67 | a decoded pilot message is appended; on an exception the list is unchanged |
| MessageVisitors.MessageVisitor.VisitWeatherData | Salvac.Sessions.Fsd/Messages/MessageVisitor.cs:69-74 | a decoded weather message is appended; on an exception the list is unchanged |
| MessageVisitors.MessageVisitor.VisitDelete | Salvac.Sessions.Fsd/Messages/MessageVisitor.cs:76-86 | a decoded deletion message is appended; on an exception the list is unchanged |
| MessageVisitors.Tokenize | Salvac.Sessions.Fsd/Messages/MessageParser.cs:47-48 | a line is classified only by a type tag it starts with, and every refusal is an invalid-message error |
| MessageVisitors.ParseLine | Salvac.Sessions.Fsd/Messages/MessageParser.cs:42-54 | a line is refused with the tokenizer's error or decoded by the tree's visit |
| MessageVisitors.FirstLine | Salvac.Sessions.Fsd.Tests/MessageParseTests.cs:39-45 | the first line holds no "\r\n" and is the whole input when the input holds none |
| MessageVisitors.Parse | Salvac.Sessions.Fsd/Messages/MessageParser.cs:42-54 | the parser reads the first message of the input; input without a terminator is a single line |
| MessageVisitors.ParseWith | Salvac.Sessions.Fsd/Messages/MessageParser.cs:42-54 | driving the visitor object gives exactly the result of Parse, and a successful visit always leaves exactly one message |
| MessageVisitors.LineSplits | Salvac.Sessions.Fsd/Messages/MessageParser.cs:42-54 | the line of a message starts with its type tag and the rest splits at ':' into its tokens |
| MessageVisitors.TruncateIntegral | Salvac.Sessions.Fsd/Messages/MessageVisitor.cs:59-60 | truncating a whole number of feet or knots to Int32 gives that integer back |
| MessageVisitors.DecodePilotTokens | Salvac.Sessions.Fsd/Messages/MessageVisitor.cs:43-67 | the decoders read the tokens of a valid pilot message back as that message |
| MessageVisitors.PilotRoundTrip | Salvac.Sessions.Fsd/Messages/MessageVisitor.cs:43-67 | a valid pilot message with whole-number altitude and speed, whose coordinates the number reader reads back, decodes from its own line |
| MessageVisitors.DecodeWeatherTokens | Salvac.Sessions.Fsd/Messages/MessageVisitor.cs:69-74 | the weather decoder reads the tokens of a valid weather message back as that message |
| MessageVisitors.WeatherRoundTrip | Salvac.Sessions.Fsd/Messages/MessageVisitor.cs:69-74 | a valid weather message whose data holds no ':' decodes from its own line |
| MessageVisitors.DeleteRoundTrip | Salvac.Sessions.Fsd/Messages/MessageVisitor.cs:76-86 | a valid deletion message decodes from its own line, with the unknown field reset to 0 |
| MessageVisitors.WeatherExample | Salvac.Sessions.Fsd.Tests/MessageParseTests.cs:145-151 | "&DAAA:BBB:0:DATA" decodes as a METAR request from AAA to BBB with data "DATA" |
| MessageVisitors.PilotExample | Salvac.Sessions.Fsd.Tests/MessageParseTests.cs:53-65 | the first pilot test line decodes to mode Charlie, squawk 0x280, rating 7, position (-8, 52.75), 20000 ft, 400 kt, the given word, on the ground, altitude difference 100 |
| MessageVisitors.PilotRejections | Salvac.Sessions.Fsd.Tests/MessageParseTests.cs:87-123 | a wrong or missing mode letter and a wrong or missing squawk are refused |
| MessageVisitors.WeatherRejections | Salvac.Sessions.Fsd.Tests/MessageParseTests.cs:167-190 | no destination, request 4, request "0.1", no data and the destination "5T" are refused with the matching exceptions |
| Clients.AsciiEncode | Salvac.Sessions.Fsd/Client.cs:154 | Encoding.ASCII.GetBytes writes one byte per character |
| Clients.AsciiDecode | Salvac.Sessions.Fsd/Client.cs:192 | Encoding.ASCII.GetString reads one character per byte |
| Clients.AsciiRoundTrip | Salvac.Sessions.Fsd/Client.cs:154-192 | an ASCII text encoded for sending and decoded on receipt is unchanged |
| Clients.AsciiDecodeIsAscii | Salvac.Sessions.Fsd/Client.cs:192 | whatever bytes arrive, the decoded text is ASCII and every byte below 0x80 is kept as its character |
| Clients.WireText | Salvac.Sessions.Fsd/Client.cs:154 | every message is written ending in "\r\n" |
| Clients.Encoder | Salvac.Sessions.Fsd/Client.cs:154 | the encoder of the send loop writes each message's wire text |
| Clients.Frame | Salvac.Sessions.Fsd/Client.cs:194-205 | what is left in the buffer holds no "\r\n" and is no longer than the buffer |
| Clients.FrameRestores | Salvac.Sessions.Fsd/Client.cs:194-205 | the framing loop loses nothing: the queued lines, each with its "\r\n", followed by the rest, are the buffer it started from |
| Clients.FrameIsClean | Salvac.Sessions.Fsd/Client.cs:194-205 | no queued line and not the rest of the buffer holds "\r\n" |
| Clients.FramedLinesParse | Salvac.Sessions.Fsd/Client.cs:226 | every queued line is parsed whole by MessageParser.Parse |
| Clients.FrameUnframe | Salvac.Sessions.Fsd/Client.cs:194-205 | lines sent with their terminators come out of the framing loop exactly as sent, with the unfinished rest kept in the buffer |
| Clients.StreamException | Salvac.Sessions.Fsd/Client.cs:157-159 | the errors a stream write may throw and the send loop catches are IOException and ObjectDisposedException |
| Clients.SendBatch | Salvac.Sessions.Fsd/Client.cs:146-165 | a send tick takes at most the queue's length and never more than ten messages in total |
| Clients.Wire | Salvac.Sessions.Fsd/Client.cs:154 | the bytes of a run of messages are one block per message |
| Clients.SendBatchWritesInOrder | Salvac.Sessions.Fsd/Client.cs:146-165 | a send tick writes the bytes of the messages it takes, in queue order; a message whose write failed is taken but lost |
| Clients.BatchSize | Salvac.Sessions.Fsd/Client.cs:148 | a tick without trouble takes min(10, queue length) messages |
| Clients.SendBatchDrains | Salvac.Sessions.Fsd/Client.cs:146-165 | without cancellation a tick ends without error exactly when the socket stayed connected and every write succeeded, and then it has taken and written min(10, queue length) messages |
| Clients.SendBatchCancelled | Salvac.Sessions.Fsd/Client.cs:148 | a cancelled tick sends nothing |
| Clients.Delivered | Salvac.Sessions.Fsd/Client.cs:225-250 | a parsed line yields one message and a refused line none |
| Clients.HandleAll | Salvac.Sessions.Fsd/Client.cs:212-243 | with every parser exception caught, each line yields at most one message; a first line that parses yields the first message, and lines that all fail yield none |
| Clients.HandleAllAppend | Salvac.Sessions.Fsd/Client.cs:212-243 | lines are handled first in, first out: handling two runs of lines delivers the first run's messages, then the second's |
| Clients.HandleAllCount | Salvac.Sessions.Fsd/Client.cs:212-243 | every line yields at most one message, and every line yields one exactly when every line parses |
| Clients.HandleAsWritten | Salvac.Sessions.Fsd/Client.cs:210-244 | as written, the pass consumes every line unless it ends on a fault; a fault is never an InvalidMessageException; messages and unhandled lines together number at most the lines |
| Clients.HandleAsWrittenLoses | Salvac.Sessions.Fsd/Client.cs:210-244 | the pass as written delivers what the lines before the fault give, and exactly the messages of the lines it leaves queued are lost |
| Clients.HandleAsWrittenFaults | Salvac.Sessions.Fsd/Client.cs:210-244 | the pass as written ends the handling task exactly when some line fails with another exception than InvalidMessageException; otherwise it delivers what catching every exception would, and consumes every line |
| Clients.Client.constructor | Salvac.Sessions.Fsd/Client.cs:67-76 | a new client is neither connected nor disposed, has empty queues and buffer, and no cancellation or closing arguments |
| Clients.Client.ConnectAsync | Salvac.Sessions.Fsd/Client.cs:78-92 | a disposed client throws ObjectDisposedException and a connected one InvalidOperationException, without change; otherwise the client is connected afterwards exactly when the TCP connect succeeded |
| Clients.Client.RunMessageQueue | Salvac.Sessions.Fsd/Client.cs:146-165 | one send tick removes and writes the messages SendBatch takes and returns its error |
| Clients.Client.RunMessageReading | Salvac.Sessions.Fsd/Client.cs:167-208 | a disconnected socket, a failed read other than the 10060 timeout, a disposed stream and a read of 0 bytes return the matching error with no change; the 10060 timeout returns none; received bytes are decoded onto the buffer and, unless cancelled, every complete line moves to the handling queue in order |
| Clients.Client.SendNext | Salvac.Sessions.Fsd/Client.cs:150-160 | one iteration: the head of the sending queue is removed; if the socket is not connected the result is ObjectDisposed("Client is not connected anymore.") and nothing is written, a failing write returns its stream exception and writes nothing, otherwise the message's ASCII bytes are appended to the stream and the result is no error |
| Clients.Client.ExtractLines | Salvac.Sessions.Fsd/Client.cs:194-205 | unless cancelled, the buffer keeps only the text after the last "\r\n" and the handling queue gains the complete lines in order |
| Clients.Client.RunMessageHandlingAsWritten | Salvac.Sessions.Fsd/Client.cs:210-244 | one handling pass as written: lines are delivered in order until a parser exception other than InvalidMessageException ends the handling task, leaving the remaining lines queued |
| Clients.Client.RunMessageHandling | Salvac.Sessions.Fsd/Client.cs:210-244 | one handling pass that catches every parser exception: each line that parses is delivered, in queue order, and every line is consumed |
| Clients.Client.Disconnect | Salvac.Sessions.Fsd/Client.cs:254-263 | the closing arguments are recorded and cancellation is requested |
| Clients.Client.DisconnectFor | Salvac.Sessions.Fsd/Client.cs:265-268 | disconnecting without a kick message records none |
| Clients.Client.Dispose | Salvac.Sessions.Fsd/Client.cs:270-284 | the client is disposed and its queues released the first time; a second call changes nothing |
| Clients.Client.Shutdown | Salvac.Sessions.Fsd/Client.cs:123-143 | the client is no longer connected and cancellation is requested; a loop that ended without a request records a forced disconnect; Disconnected is raised with the closing arguments and the client disposed once the handling task finished normally, and neither happens when it ended with an exception |
| Clients.Client.RunTick | Salvac.Sessions.Fsd/Client.cs:99-121 | one loop iteration stops exactly on a cancellation request or the first send or read error; a Disconnect from another thread always leads to a stop with its arguments recorded |
| Clients.Client.ClientLoop | Salvac.Sessions.Fsd/Client.cs:94-144 | the loop keeps running only while no tick asks to disconnect; once it ends the client is disconnected, cancelled, and raises Disconnected with the closing arguments unless the handling task faulted; a loop that ended on its own records a forced disconnect |
| Clients.RefusedWeatherLine | Salvac.Sessions.Fsd/Client.cs:226 | "&DA:B:4:D" passes the grammar but the constructor refuses request type 4 with ArgumentException |
| Clients.HandlingStopsOnRefusedLine | Salvac.Sessions.Fsd/Client.cs:226-231 | as written, that line ends the handling task and the valid weather line after it is never delivered; catching every parser exception delivers it |
| Clients.HandleFaultThenMessage | Salvac.Sessions.Fsd/Client.cs:226-231 | a fatal line followed by a good one: the pass as written delivers nothing and HandleAll delivers the good one |
| FsdEntities.WakeUpStep | Salvac.Sessions.Fsd/FsdEntity.cs:55-65 | WakeUp restarts the stopwatch at 0, so the entity is active, and keeps the last reported flag |
| FsdEntities.AdvanceStep | Salvac.Sessions.Fsd/FsdEntity.cs:31 | time passing only moves the stopwatch forward |
| FsdEntities.RefreshStep | Salvac.Sessions.Fsd/FsdEntity.cs:67-77 | Refresh fires TimedOut exactly at or beyond 60 s, Updated exactly below 60 s when the inactive flag (10 s) differs from the one last reported, and nothing otherwise; only an Updated records the new flag |
| FsdEntities.RefreshSettles | Salvac.Sessions.Fsd/FsdEntity.cs:67-77 | below the timeout, a second Refresh without time passing fires nothing |
| FsdEntities.TimedOutNotLatched | Salvac.Sessions.Fsd/FsdEntity.cs:70-71 | TimedOut is not latched: each Refresh at or beyond the timeout fires it again |
| FsdEntities.WakeUpReactivates | Salvac.Sessions.Fsd/FsdEntity.cs:55-77 | an entity reported inactive that receives a report is reported active again by one Updated at the next Refresh |
| FsdEntities.Run | Salvac.Sessions.Fsd/FsdEntity.cs:31-77 | the stopwatch never runs backwards over a run of ticks |
| FsdEntities.CountUpdatedAppend | Salvac.Sessions.Fsd/FsdEntity.cs:80-84 | Updated events of two runs add up |
| FsdEntities.UpdatedAtMostOnceWithoutReports | Salvac.Sessions.Fsd/FsdEntity.cs:67-77 | without a report, an entity fires Updated at most once, when it becomes inactive, and the flag it reported is never ahead of the stopwatch |
| FsdEntities.FreshEntityUpdatesAtMostOnce | Salvac.Sessions.Fsd/FsdEntity.cs:44-77 | a fresh entity fires Updated at most once before its next position report |
| FsdEntities.FsdEntity.IsInactive | Salvac.Sessions.Fsd/FsdEntity.cs:37-38 | inactive exactly when the stopwatch reads at least 10 s |
| FsdEntities.FsdEntity.constructor | Salvac.Sessions.Fsd/FsdEntity.cs:44-52 | a non-empty name is stored, the flag cleared and the stopwatch started at 0, with no event |
| FsdEntities.FsdEntity.Advance | Salvac.Sessions.Fsd/FsdEntity.cs:31 | the stopwatch advances and nothing else changes |
| FsdEntities.FsdEntity.WakeUp | Salvac.Sessions.Fsd/FsdEntity.cs:55-65 | the state becomes WakeUpStep of the old state, with no event |
| FsdEntities.FsdEntity.Refresh | Salvac.Sessions.Fsd/FsdEntity.cs:67-77 | the state becomes RefreshStep of the old state and its event is appended to the log |
| FsdEntities.FsdEntity.NotifyUpdated | Salvac.Sessions.Fsd/FsdEntity.cs:80-84 | one Updated event is appended and the timer state is unchanged |
| FsdEntities.NewEntity | Salvac.Sessions.Fsd/FsdEntity.cs:46 | an empty name throws ArgumentNullException("fsdName"); otherwise a fresh, active entity with that name and no events |
| FsdPilots.FsdPilot.Callsign | Salvac.Sessions.Fsd/FsdPilot.cs:30-31 | the callsign is the FSD name |
| FsdPilots.FsdPilot.constructor | Salvac.Sessions.Fsd/FsdPilot.cs:46-55 | a new pilot has no position and no last position, zero ground speed and zero altitude, and a fresh active entity |
| FsdPilots.FsdPilot.HandlePosition | Salvac.Sessions.Fsd/FsdPilot.cs:58-70 | the previous position becomes LastPosition only when there was a first report; position, ground speed and altitude come from the message; Updated fires once and the stopwatch restarts; Position stays the latest report and LastPosition the one before |
| FsdPilots.NewPilot | Salvac.Sessions.Fsd/FsdPilot.cs:46-47 | an empty name throws ArgumentNullException("fsdName"); otherwise a fresh pilot with no reports |
| FsdPilots.TwoReports | Salvac.Sessions.Fsd/FsdPilot.cs:58-70 | after two reports LastPosition is the first and Position the second, with two Updated events |
| FsdPlanes.FsdPlane.Callsign | Salvac.Sessions.Fsd/FsdPlane.cs:26-27 | the callsign is the FSD name |
| FsdPlanes.FsdPlane.constructor | Salvac.Sessions.Fsd/FsdPlane.cs:33-37 | the plane is named after the message's source and the message is handled as a first report: its position is stored, Updated fires once and the entity is active |
| FsdPlanes.FsdPlane.HandlePosition | Salvac.Sessions.Fsd/FsdPlane.cs:40-46 | the position is replaced, Updated fires once and the stopwatch restarts |
| FsdPlanes.NewPlane | Salvac.Sessions.Fsd/FsdPlane.cs:33-34 | an empty source throws ArgumentNullException("fsdName"), a valid message always gives a plane, holding the message's position and named after its source |
| SessionManagers.CloseStep | Salvac/SessionManager.cs:77-88 | CloseSession leaves no session loaded; with none loaded it does nothing; otherwise it calls Close, then Dispose, on the held session and raises SessionClosed once |
| SessionManagers.LoadStep | Salvac/SessionManager.cs:64-75 | a null session throws ArgumentNullException("session") before any change; otherwise the current session is closed first, the new one is held and SessionOpened is raised after the close effects |
| SessionManagers.Apply | Salvac/SessionManager.cs:64-88 | every public operation keeps IsLoaded true exactly when a session is held |
| SessionManagers.Replay | Salvac/SessionManager.cs:64-88 | any run of operations keeps IsLoaded true exactly when a session is held |
| SessionManagers.CountAppend | Salvac/SessionManager.cs:73-87 | events of two runs add up |
| SessionManagers.CloseCounts | Salvac/SessionManager.cs:77-88 | CloseSession raises no SessionOpened, and one SessionClosed exactly when a session was loaded |
| SessionManagers.EventsBalance | Salvac/SessionManager.cs:64-88 | over any run, SessionOpened and SessionClosed pair up: the opened count plus one for a session loaded at the start equals the closed count plus one for a session loaded at the end |
| SessionManagers.OpenedThenClosed | Salvac/SessionManager.cs:57-88 | from a fresh manager, SessionClosed never outnumbers SessionOpened, and SessionOpened leads by at most one |
| SessionManagers.SessionManager.State | Salvac/SessionManager.cs:50-54 | the manager's state is its IsLoaded flag and its session |
| SessionManagers.SessionManager.constructor | Salvac/SessionManager.cs:57-61 | a new manager has no session loaded and has raised nothing |
| SessionManagers.SessionManager.CloseSession | Salvac/SessionManager.cs:77-88 | the state and the calls and events are those CloseStep gives |
| SessionManagers.SessionManager.LoadSession | Salvac/SessionManager.cs:64-75 | a null session throws ArgumentNullException("session") without change; otherwise the state and the calls and events are those LoadStep gives |
| SortedEnablingSets.Compare | Salvac.Data/SortedEnablingSet.cs:36-49 | Comparer.Compare: the comparison's own answer (with a comparison) or a value in {-1, 0, 1} |
| SortedEnablingSets.CompareEnabledFirst | Salvac.Data/SortedEnablingSet.cs:38-45 | with a comparison, entries it tells apart are ordered enabled first, and inside a group by the comparison |
| SortedEnablingSets.LeTotalPreorder | Salvac.Data/SortedEnablingSet.cs:94 | the order the list is sorted by (enabled first, then by the comparison) is a total preorder, so the sort is well defined |
| SortedEnablingSets.LeRefinesCompare | Salvac.Data/SortedEnablingSet.cs:36-45 | with a valid comparison, the sort order never contradicts Comparer.Compare, and Compare's strict answers fix the order |
| SortedEnablingSets.DefaultCompareAsWritten | Salvac.Data/SortedEnablingSet.cs:46-48 | without a comparison, two different disabled entries each compare greater than the other, and two enabled ones each compare less |
| SortedEnablingSets.DefaultCompare | Salvac.Data/SortedEnablingSet.cs:46-48 | the corrected default comparer answers in {-1, 0, 1} and agrees with the source's comparer across the two groups |
| SortedEnablingSets.DefaultCompareConsistent | Salvac.Data/SortedEnablingSet.cs:46-48 | the corrected default comparer is antisymmetric and transitive, and "not greater" is exactly the sort order |
| SortedEnablingSets.CountEnabledAppend | Salvac.Data/SortedEnablingSet.cs:136 | the number of enabled entries of a concatenation is the sum of the two counts |
| SortedEnablingSets.CountEnabledUpdate | Salvac.Data/SortedEnablingSet.cs:166-171 | replacing one entry moves the enabled count by the change of that entry's flag, as EnableAll's counter updates do |
| SortedEnablingSets.CountEnabledRemove | Salvac.Data/SortedEnablingSet.cs:249-252 | removing one entry lowers the enabled count by one exactly when the entry was enabled |
| SortedEnablingSets.CountEnabledPermutation | Salvac.Data/SortedEnablingSet.cs:94 | sorting does not change the number of enabled entries |
| SortedEnablingSets.EnabledPrefix | Salvac.Data/SortedEnablingSet.cs:72-76 | the length of the longest run of enabled entries at the head of the list |
| SortedEnablingSets.EnabledContent | Salvac.Data/SortedEnablingSet.cs:68-78 | EnabledContent yields the keys of the entries before the first disabled one |
| SortedEnablingSets.SortedEnabledFirst | Salvac.Data/SortedEnablingSet.cs:68-78 | in a list sorted enabled first, the enabled prefix holds every enabled entry, so EnabledContent yields all enabled items |
| SortedEnablingSets.SearchRange | Salvac.Data/SortedEnablingSet.cs:271-273 | List.BinarySearch over a range: a hit compares 0 with the value, a miss is the complement of an insertion point inside the range |
| SortedEnablingSets.BinarySearch | Salvac.Data/SortedEnablingSet.cs:271-273 | List.BinarySearch(index, count) throws for a negative index or count or a range past the end, and otherwise searches that range |
| SortedEnablingSets.SearchRangeComplete | Salvac.Data/SortedEnablingSet.cs:271-273 | over one group sorted by a valid comparison, the binary search misses only when no entry of the range compares 0 with the value |
| SortedEnablingSets.FirstIndex | Salvac.Data/SortedEnablingSet.cs:279-285 | the default scan returns the first index below the bound holding the item, and -1 exactly when there is none |
| SortedEnablingSets.LinearScanAsWritten | Salvac.Data/SortedEnablingSet.cs:279-285 | the scan within the list gives the first matching index, or -1 |
| SortedEnablingSets.IsEnabledAsWritten | Salvac.Data/SortedEnablingSet.cs:239-242 | IsEnabled as written holds exactly when FindItem over the enabled items does not return -1 |
| SortedEnablingSets.Find | Salvac.Data/SortedEnablingSet.cs:267-287 | the corrected FindItem: a hit lies in the searched part and stands for the item; without a comparison it is the first such index |
| SortedEnablingSets.FindItemAsWritten | Salvac.Data/SortedEnablingSet.cs:267-287 | with a comparison, FindItem throws exactly when the counter lies outside 0..Count; with a counter in range it returns -1 or an index of an entry standing for the item, and it is the corrected Find when only enabled items are wanted or without a comparison |
| SortedEnablingSets.FindAsWrittenAgrees | Salvac.Data/SortedEnablingSet.cs:267-287 | FindItem as written agrees with the corrected Find without a comparison, and whenever its first search does not miss past index 0 |
| SortedEnablingSets.FindCorrect | Salvac.Data/SortedEnablingSet.cs:267-287 | in a sorted set with an exact counter, Find hits exactly when some entry of the searched part (the enabled prefix, or the whole list) stands for the item |
| SortedEnablingSets.DifferenceValid | Salvac.Data/SortedEnablingSet.cs:36-45 | comparison by key difference meets the Comparison contract |
| SortedEnablingSets.FindItemAsWrittenMisses | Salvac.Data/SortedEnablingSet.cs:272 | for {1 enabled, 3 disabled} compared by difference: Contains(3) misses the disabled 3 (the first search returns -2) and IsEnabled(2) holds for the absent 2 |
| SortedEnablingSets.EnabledAddedAsWrittenIsZero | Salvac.Data/SortedEnablingSet.cs:131-136 | without a comparison, AddRange's counter sum, enumerated after the items were added, counts nothing |
| SortedEnablingSets.CounterAsWritten | Salvac.Data/SortedEnablingSet.cs:91-136 | a set given one enabled item by the constructor or AddRange holds it as enabled, yet the counter stays 0 and IsEnabled answers false |
| SortedEnablingSets.ClearedAsWritten | Salvac.Data/SortedEnablingSet.cs:216-219 | Clear as written empties the list and keeps the counter |
| SortedEnablingSets.LookupAfterClearAsWritten | Salvac.Data/SortedEnablingSet.cs:216-219 | after Clear on a set with an enabled item, the kept counter sends the lookups past the empty list and they throw |
| SortedEnablingSets.Additions | Salvac.Data/SortedEnablingSet.cs:131-133 | the entries AddRange adds are items of the list with their selected state, none already in the set and no two standing for the same item |
| SortedEnablingSets.AdditionsCover | Salvac.Data/SortedEnablingSet.cs:131-133 | after AddRange every item of the list stands for an entry of the set |
| SortedEnablingSets.Flip | Salvac.Data/SortedEnablingSet.cs:166-170 | EnableAll's change to one entry: a selected entry takes the new state, any other keeps its own |
| SortedEnablingSets.FlipAll | Salvac.Data/SortedEnablingSet.cs:164-173 | EnableAll's loop changes every entry as Flip does and keeps the length |
| SortedEnablingSets.SetItems | Salvac.Data/SortedEnablingSet.cs:189-198 | EnableAll(items) changes entries in place and keeps the length of the list |
| SortedEnablingSets.SetItemsDefault | Salvac.Data/SortedEnablingSet.cs:189-198 | without a comparison and with distinct keys, exactly the listed items take the new state |
| SortedEnablingSets.SortKeepsCount | Salvac.Data/SortedEnablingSet.cs:94 | sorting leaves the list sorted and its enabled count exact |
| SortedEnablingSets.SortKeepsHolds | Salvac.Data/SortedEnablingSet.cs:134 | sorting keeps every item the list stood for |
| SortedEnablingSets.SortedEnablingSet.constructor | Salvac.Data/SortedEnablingSet.cs:87-95 | the list is the given entries sorted, with an exact counter |
| SortedEnablingSets.SortedEnablingSet.Count | Salvac.Data/SortedEnablingSet.cs:80-81 | Count is the length of the list |
| SortedEnablingSets.SortedEnablingSet.EnabledItems | Salvac.Data/SortedEnablingSet.cs:68-78 | EnabledContent: the keys of the enabled prefix, each of an enabled entry |
| SortedEnablingSets.SortedEnablingSet.FindItem | Salvac.Data/SortedEnablingSet.cs:267-287 | FindItem with the set's own counter returns what Find specifies |
| SortedEnablingSets.SortedEnablingSet.Contains | Salvac.Data/SortedEnablingSet.cs:221-224 | Contains holds exactly when some entry stands for the item |
| SortedEnablingSets.SortedEnablingSet.IsEnabled | Salvac.Data/SortedEnablingSet.cs:239-242 | IsEnabled (corrected) holds exactly when some enabled entry stands for the item |
| SortedEnablingSets.SortedEnablingSet.Remove | Salvac.Data/SortedEnablingSet.cs:245-254 | an absent item gives false and changes nothing; otherwise the entry FindItem finds is removed, the counter drops if it was enabled, and the set stays sorted and exact |
| SortedEnablingSets.SortedEnablingSet.Clear | Salvac.Data/SortedEnablingSet.cs:216-219 | the corrected Clear empties the list and resets the counter |
| SortedEnablingSets.SortedEnablingSet.AddRange | Salvac.Data/SortedEnablingSet.cs:127-139 | a null list throws ArgumentNullException("items") and changes nothing; otherwise the new items are added with their selected state, the list sorted, every item held and the counter exact |
| SortedEnablingSets.SortedEnablingSet.NewValues | Salvac.Data/SortedEnablingSet.cs:131 | the query's entries are exactly the Additions: items not yet in the set, with their selected state |
| SortedEnablingSets.SortedEnablingSet.EnableAll | Salvac.Data/SortedEnablingSet.cs:162-178 | every selected entry takes the new state, the list is re-sorted and the counter stays exact |
| SortedEnablingSets.SortedEnablingSet.EnableItems | Salvac.Data/SortedEnablingSet.cs:180-203 | a null list throws ArgumentNullException("source"); otherwise each item found takes the new state, the list is re-sorted and the counter stays exact |
| SortedEnablingSets.NewSortedEnablingSet | Salvac.Data/SortedEnablingSet.cs:87-95 | a null list throws ArgumentNullException("context"); otherwise a fresh valid set holding the sorted entries |
| BufferedAverages.SumUpdate | Salvac/BufferedAverageDouble.cs:46-47 | overwriting one slot of the buffer changes its sum by the new value minus the overwritten one |
| BufferedAverages.SumZeros | Salvac/BufferedAverageDouble.cs:38-41 | a freshly allocated all-zero buffer sums to 0, matching the initial average of 0 |
| BufferedAverages.AverageStep | Salvac/BufferedAverageDouble.cs:49-50 | subtracting the old value's share and adding the new one's keeps the average equal to the new sum over the length |
| BufferedAverages.BufferedAverageDouble.BufferLength | Salvac/BufferedAverageDouble.cs:27-28 | BufferLength is the size of the buffer |
| BufferedAverages.BufferedAverageDouble.constructor | Salvac/BufferedAverageDouble.cs:34-42 | for a length above 1: a fresh all-zero buffer of that length, index 0, average 0, and the average is the buffer's mean |
| BufferedAverages.BufferedAverageDouble.AddValue | Salvac/BufferedAverageDouble.cs:44-54 | the value overwrites the slot at the index, the index advances modulo the length, and the average stays the mean of the buffer |
| BufferedAverages.NewBufferedAverage | Salvac/BufferedAverageDouble.cs:34-42 | a length of 1 or less throws ArgumentOutOfRangeException("bufferLength"); otherwise a fresh valid averager of that length with average 0 |

## Left out

- The ANTLR grammar, lexer and error strategy that produce the parse tree are not part of this model. `MessageVisitors.Tokenize` stands in for them: it recognises the colon-separated line shapes of the protocol by their type tag and hands each token's text to the visitor as it stands. Token text that the grammar's tokens may refuse as an invalid message (white space, signs, letters in a number field) therefore reaches `int.Parse` or a constructor in the model. `MessageParser`'s rule that a line yields exactly one message is kept.
- TCP, network streams, tasks, threads, locks, cancellation tokens and `Thread.Sleep`. Each `Client` loop is one sequential step. Bytes read or written are method parameters, and cancellation is a boolean field.
- `Client`: there is no public enqueue-for-send, so the send queue is filled only by the model's own methods. `Dispose` nulls the queues, which the model represents as emptying them.
- Events (`Updated`, `TimedOut`, `SessionOpened`, `SessionClosed`, `Disconnected`, `EnableStatesChanged`) are logs of what was fired; handlers are not modelled. `SortedEnablingSet` does not record `EnableStatesChanged` at all.
- Double formatting and parsing (`double.ToString`, `double.Parse`, `double.TryParse`) are function parameters. Only their round trip is assumed, as a precondition of the round-trip lemmas.
- Values are reals, not doubles, so rounding is not modelled. This covers the unit conversions, the moving average of `BufferedAverageDouble` and the relative difference in `Utils.FloatingEqual`. Unit conversions are not claimed to round-trip, because their constants are inexact.
- `Utils.FloatingEqual2D`, `SpeedVector`, the `Angle` trigonometric functions and `Angle.FromRadians` (floating point).
- Speed and Pressure infinity/NaN helpers, `GetHashCode` and `ToString` of the value types, and the `Frequency.Equals(object)` fallback for non-frequency objects.
- Floating.FloatingEqual: the source's branch for a zero operand or a difference below double.Epsilon compares the difference with `epsilon * double.Epsilon`. The model makes that branch exact equality. This matches double arithmetic for every tolerance below 0.5, where the product rounds to 0 and distinct doubles are never closer than double.Epsilon. The types use only 1e-3, 1e-5 and 1e-10; larger tolerances are not modelled.
- The `Equals(object)` overrides of `Distance`, `Speed`, `Pressure`, `Angle` and `Squawk` (a type test followed by `Equals` of the type) are not modelled; only the typed `Equals` is.
- The public `Unkown` setter of `DeletePlaneMessage`: the unknown field is set only by the constructor.
- `IsValidFsdName` and the other letter tests use ASCII letters, whereas .NET's `char.IsLetter` also accepts other Unicode letters.
- `PilotRating` is the integer range 2..11; the enum member names are not modelled.
- `SquawkMode` is declared twice in the source, once per position message; the model has one enum.
- The on-ground bit of the packed pitch/bank/heading word is read in little-endian order.
- The full `PlanePosition` constructor is the datatype constructor.
- DeletePilotMessage.cs and DeleteAtcMessage.cs are not part of this model. The "#DP" and "#DA" kinds follow the shape of DeletePlaneMessage.
- FsdController, FsdSession and FsdSessionProvider are not part of this model. FsdPilot's public `Position` and `Altitude` setters are not modelled, and neither is `TimerElapsedTime`. The stopwatch is an explicit count of milliseconds that only `Advance` moves.
- `SessionManager.GetProviders` (plugin discovery by reflection) and the static `Current` instance. The manager is an ordinary object.
- `PriorityCollection` items are values (`T(!new)`), and null items are `Option`. `List.Sort` is modelled by a stable insertion sort, which is one of the orders the unstable .NET sort may produce. The same stands in for `SortedEnablingSet`'s sort, with the limit given on the next line.
- `SortedEnablingSet` items are `int` keys. Left out of it:
  - the convenience constructors and the overloads that only build a selector or forward (`Add`, `AddRange(params)`, `EnableAll(bool, params)`, `EnableItem`);
  - `CopyTo` and `GetEnumerator`.
- SortedEnablingSets.SortedEnablingSet.constructor, AddRange, EnableAll and EnableItems: the list is sorted by `Le`, which puts an enabled entry before a disabled one even when the comparison calls their keys equal. `Comparer.Compare` returns 0 for such a pair, so the .NET sort may leave the disabled entry first. `Valid()` (enabled entries first), `EnabledContent` and `FindCorrect` are therefore proved only for the model's tie order. No such tie arises when the comparison returns 0 only for equal keys and no key appears twice.
- SortedEnablingSets.SortedEnablingSet.AddRange: the duplicate test is modelled as intended membership. With a comparison, the source's binary search runs over a list that is partly extended and not yet sorted, and which entries it finds there is not modelled.
- SortedEnablingSets.SetItemsDefault: which entries `EnableAll(items, enabled)` changes is proved only without a comparison and for distinct keys. With a comparison, `SortedEnablingSets.SortedEnablingSet.EnableItems` states its result only through `SetItems`.
- Distances.TryParse and the other unit parsers take the number parser as a parameter; number syntax is not modelled.
- Distances.Div, Speeds.Div, Pressures.Div: the source divides by zero without a check and gets an infinite or NaN value. Division by zero (Infinity/NaN) is outside the real-valued model, so these require a non-zero divisor.
- Text.IndexOfCrLf: `Client` calls the culture-sensitive `string.IndexOf(string)`. The model searches ordinally for an adjacent CR and LF. A culture's collation may ignore some characters (NUL and other control characters among them), so the source may also match a CR and an LF with such characters between them. Culture sensitivity is not modelled.
- Numerals.ParseInt32, Numerals.ParseUInt32: the current culture's positive and negative signs are modelled as the invariant culture's '+' and '-'; culture sensitivity is not modelled.
- Numerals.FormatInteger, Numerals.FormatRounded: the parameterless `ToString()` and `ToString("0")` format with the current culture; the model writes the invariant culture's '-' and ASCII digits.

## Findings

| source | as written | input that shows it | evidently intended | confidence | as-written member | corrected member |
|---|---|---|---|---|---|---|
| Salvac.Data/Types/Distance.cs:288-304 | the unit designators are tried in enum order, so "m" matches before "km" and "nm" | "5km" is read as the number text "5k" in metres, which then fails to parse | the longest matching designator wins, so "5km" is 5 kilometres | high, not executed | Distances.TryParseUnitAsWrittenExamples | Distances.TryParseUnitDesignator |
| Salvac.Sessions.Fsd/Client.cs:226-231 | the handling loop catches only InvalidMessageException, so an ArgumentException from a message constructor ends the handling task | "&DA:B:4:D" (a weather request type the constructor refuses), followed by any valid line | the refused line is skipped and handling goes on with the next line | medium, not executed | Clients.HandlingStopsOnRefusedLine | Clients.Client.RunMessageHandling |
| Salvac.Data/SortedEnablingSet.cs:272 | FindItem returns the first search's result unless it is exactly -1, but BinarySearch returns any negative complement on a miss | {1 enabled, 3 disabled} compared by difference, counter 1: Contains(3) is false and IsEnabled(2) is true | any negative first result sends the search on to the disabled part (and IsEnabled tests for a negative result) | high, not executed | SortedEnablingSets.FindItemAsWrittenMisses | SortedEnablingSets.FindCorrect |
| Salvac.Data/SortedEnablingSet.cs:91-136 | the constructor sets the enabled counter to 0 whatever the entries, and AddRange counts a lazy query again after adding its items, when the query yields nothing more | a set built from one enabled item x: IsEnabled(x) is false without a comparison | the counter equals the number of enabled entries | high, not executed | SortedEnablingSets.CounterAsWritten | SortedEnablingSets.SortedEnablingSet.AddRange |
| Salvac.Data/SortedEnablingSet.cs:216-219 | Clear empties the list but keeps the enabled counter | Clear on a set with an enabled item, then IsEnabled(x): the lookup reads past the empty list and throws | Clear also resets the counter to 0 | high, not executed | SortedEnablingSets.LookupAfterClearAsWritten | SortedEnablingSets.SortedEnablingSet.Clear |
| Salvac.Data/SortedEnablingSet.cs:46-48 | without a comparison, two different entries in the same group each compare greater (disabled) or each compare less (enabled) than the other | Entry(1, false) and Entry(2, false) both compare +1 | enabled entries before disabled, with entries of the same group compared equal | high, not executed | SortedEnablingSets.DefaultCompareAsWritten | SortedEnablingSets.DefaultCompareConsistent |
