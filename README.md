# Pokedex page logic in Dafny

A model of the client-side logic of a small browser Pokedex game (`pokedex.js`).
When the page loads, it turns the roster the web service returns (`category:name` lines) into sprite images.
Only the three starters, bulbasaur, charmander and squirtle, are marked found and clickable.
Clicking a found sprite decodes the creature's name from the image id.
The page then fills the player's card: the capitalised name, the move slots (name, type icon, DP label, button), the images, the description and the HP text.
Every fetch passes through a status check.

DOM elements are modelled as records and arrays of records:
- an image is an `Image` (id, src, class list, whether it has the click handler);
- a move slot is one index of four arrays: move names, icon sources, DP text nodes and button class lists.

The modules follow the file's structure:

- `Wrappers` (`wrappers.dfy`): `Option` (JavaScript `undefined`) and `Result` (a thrown error).
- `JsText` (`js_text.dfy`): the JavaScript built-ins the code relies on: `split` with a one-character separator and upper-casing one character.
  It also defines `Join`. The code never calls `join`; `Join` is the inverse of `split` that the lemmas use.
- `Decimal` (`decimal.dfy`): how an integer is rendered when concatenated to a string, plus a parser that undoes it.
  The parser accepts exactly the texts JavaScript prints (no leading zeros, no `-0`), so a label that parses as `n` is the label of `n`.
- `Pokedex` (`pokedex.dfy`): the pure logic.
  This covers roster parsing, sprite records, ids and their decoding, name display, selectors, card text and `statusCheck`.
- `Sprites` (`sprites.dfy`): the roster view as a class whose `AppendSprites` loop appends images.
- `MoveSlots` (`moves.dfy`): `appendMoves` as methods over the four slot arrays.
  It is proved against specification functions of the old slot contents.

Where the code reads a missing field (`line.split(":")[1]` on a line without a colon), the model yields `None`.
Concatenating that value gives the text `"undefined"`, as JavaScript does.
So a roster line without a colon produces the image `pokemon-undefined`.

## Model

| member | source | states |
|---|---|---|
| `Pokedex.GetNamesList` | pokedex.js:18-22 | the roster has one line per newline plus one; no line holds a newline; joining the lines with newlines gives back the text |
| `JsText.Split` | pokedex.js:20 | a split yields at least one piece, and no piece holds the separator |
| `JsText.JoinSplit` | pokedex.js:20 | joining the pieces of a split with the separator restores the original text |
| `JsText.SplitCount` | pokedex.js:20 | a split yields exactly one more piece than the text has separators |
| `JsText.SplitJoin` | pokedex.js:69 | splitting a join of separator-free pieces gives back the pieces |
| `JsText.SplitAfterPrefix` | pokedex.js:97 | the text before the first separator is the first piece, and the rest splits on its own |
| `Pokedex.Str` | pokedex.js:71 | a present value concatenates as itself, and a missing one (`undefined`) as the text `undefined` |
| `Pokedex.RosterName` | pokedex.js:69-70 | a roster line has a name field if and only if it contains a colon; the name holds no colon; see also RosterNameOfEntry |
| `Pokedex.RosterNameOfEntry` | pokedex.js:69-70 | for a `category:name` line without further colons, the name read is `name` |
| `Pokedex.AddClass` | pokedex.js:75-79 | adding a class leaves it in the list, keeps every other class, adds no other token and does nothing when the class is already there |
| `Pokedex.AddClassKeepsList` | pokedex.js:220 | adding a class keeps a class list free of duplicates; adding it twice is the same as adding it once |
| `Pokedex.SpriteFor` | pokedex.js:69-83 | every image has class `sprite`, and it has the click handler if and only if it has class `found` |
| `Pokedex.SpriteForStarters` | pokedex.js:74-79 | an image gets class `found` and the click handler if and only if its name is bulbasaur, charmander or squirtle; its class list is then `found sprite`, and otherwise `sprite` |
| `Pokedex.SpriteId` | pokedex.js:82 | the id is `pokemon-` followed by the name; see also DecodeSpriteIdRoundTrip |
| `Pokedex.SpriteUrl` | pokedex.js:71 | the sprite source is ENDPOINT followed by `sprites/<name>.png` |
| `Pokedex.SpriteIdUrlInjective` | pokedex.js:71-82 | different names give different ids and different sprite URLs |
| `Pokedex.DecodeId` | pokedex.js:97-98 | an id yields a name if and only if it contains a dash; the name holds no dash; see also DecodeSpriteIdRoundTrip |
| `Pokedex.DecodeSpriteId` | pokedex.js:96-98 | decoding the id of any name gives the part of the name before its first dash |
| `Pokedex.DecodeSpriteIdRoundTrip` | pokedex.js:96-98 | decoding the id built for a name gives back that name if and only if the name has no dash |
| `Pokedex.ClickableSpriteDecodes` | pokedex.js:74-98 | a clickable sprite's id decodes to the name on its roster line |
| `JsText.AsciiUpper` | pokedex.js:148 | the upper-case form of a character is never an ASCII lower-case letter (`a`–`z`); a lower-case ASCII letter maps to its capital, and any other character is unchanged |
| `Pokedex.Capitalize` | pokedex.js:148 | the display name has the input's length, starts with the upper-case form of the first character, and keeps every later character |
| `Pokedex.CapitalizeIdempotent` | pokedex.js:148 | a display name never starts with an ASCII lower-case letter (`a`–`z`), so capitalising it again changes nothing |
| `Pokedex.Scope` | pokedex.js:142-146 | `'p1'` selects `#p1`, and every other value selects `#p2` |
| `Pokedex.NameSelector` | pokedex.js:142-146 | `'p1'` selects `#p1 .name`, and every other value selects `#p2 .name` |
| `Pokedex.MoveSelectors` | pokedex.js:167-177 | `'p1'` selects the four `#p1` move queries, and every other value selects the `#p2` ones |
| `Pokedex.CardSelectors` | pokedex.js:240-252 | `'p1'` selects the five `#p1` card queries (the weakness query has two spaces), and every other value selects the `#p2` ones |
| `Pokedex.ScopesDiffer` | pokedex.js:142-146 | the same class query under the two cards' scopes gives two different selector strings |
| `Pokedex.SelectorsSeparateCards` | pokedex.js:142-252 | two player values that pick different cards never share a selector |
| `Pokedex.HpText` | pokedex.js:266 | the HP text is the one and only text that reads as the HP followed by `HP` |
| `Pokedex.CardFaceOf` | pokedex.js:260-266 | each image source is ENDPOINT followed by the card's image path; the description is the card's; the HP text is exactly `<hp>HP`, the only text that reads as the card's HP followed by `HP` |
| `Pokedex.IconUrl` | pokedex.js:204 | the icon source is ENDPOINT followed by `icons/<type>.jpg` |
| `Pokedex.DpNodes` | pokedex.js:211-214 | a move with `dp` appends one label, exactly `<dp> DP` (the only text that reads as its DP followed by ` DP`); a move without `dp` appends nothing |
| `Pokedex.StatusCheck` | pokedex.js:49-55 | the result is the response itself if and only if the response is ok; otherwise it is an error |
| `Decimal.IntToDecimal` | pokedex.js:212 | the rendering of an integer is non-empty and starts with `-` if and only if the integer is negative; see ParseIntToDecimal and ParseIntExact for its inverse |
| `Decimal.ParseIntExact` | pokedex.js:266 | any text the parser accepts is exactly the rendering of the integer it reads, so leading zeros and `-0` are rejected |
| `Decimal.WithUnitExact` | pokedex.js:266 | a text reads as the label of `n` if and only if it is the label of `n` |
| `Decimal.WithUnitUnique` | pokedex.js:212 | the label of `n` is the only text that parses as a label of `n` |
| `Decimal.ParseIntToDecimal` | pokedex.js:266 | the rendering of an integer parses back to that integer |
| `Decimal.WithUnitRoundTrip` | pokedex.js:266 | a label built as `<n><unit>` parses back to `n` |
| `Decimal.WithUnitInjective` | pokedex.js:212 | two labels with the same unit are equal only when their numbers are |
| `Sprites.SpritesFor` | pokedex.js:68-85 | one image per roster line, in list order, each the image of its line |
| `Sprites.BuildSprite` | pokedex.js:69-83 | the image built by one iteration of the loop is the image of its roster line |
| `Sprites.PokedexView.AppendSprites` | pokedex.js:66-85 | the view's images afterwards are the old ones followed by the images of the roster lines, in order |
| `Sprites.RosterImageCount` | pokedex.js:7-10 | the roster text yields one image per newline plus one |
| `Sprites.DistinctNamesDistinctIds` | pokedex.js:68-85 | when no two roster lines carry the same name, no two images share an id or a src |
| `Sprites.FoundExactlyStarters` | pokedex.js:74-79 | image k is found if and only if line k names a starter; it is clickable if and only if it is found; a click recovers line k's name |
| `MoveSlots.WriteSlot` | pokedex.js:203-214 | slot i gets the move's name, its icon URL and its DP label (the old first text node removed); nothing else changes |
| `MoveSlots.FillSlots` | pokedex.js:200-216 | every slot k below the move count gets move k's name, icon and DP label; the other slots are unchanged; it fails if and only if there are more moves than slots |
| `MoveSlots.HideExtraButtons` | pokedex.js:219-221 | as written, only button number k, where k is the move count, gets `hidden`, and only when it exists; all other buttons are unchanged |
| `MoveSlots.AppendMoves` | pokedex.js:199-222 | the fill of FillSlots, then the hiding of HideExtraButtons if the fill did not throw |
| `MoveSlots.HidingLoopAsWritten` | pokedex.js:219-221 | the hiding loop changes no button other than the one whose index is the move count |
| `MoveSlots.HidingLoopMissesLastButton` | pokedex.js:219-221 | with two moves and four buttons, the fourth button is not hidden as written, but it is hidden by the intended loop |
| `MoveSlots.HideUnusedButtons` | pokedex.js:188-192 | every button from the move count on gets `hidden`; the others are unchanged |
| `MoveSlots.AppendMovesIntended` | pokedex.js:188-222 | the fill of FillSlots, then every unused button hidden |
| `MoveSlots.HiddenAllUnusedSpec` | pokedex.js:188-192 | the used buttons are untouched and every other button has `hidden` |
| `MoveSlots.DpAfter` | pokedex.js:206-214 | writing a move into a DP element drops its first text node, keeps the others in order, and appends the move's label nodes last |
| `MoveSlots.DpAfterSingleNode` | pokedex.js:206-214 | a DP element that held at most one text node afterwards holds exactly `[<dp> DP]` for a move with `dp`, and nothing otherwise |

## Left out

- The network fetches `fetchNames` and `getPokemonsJSON` (pokedex.js:28-39, 118-131) are I/O. The roster text and the card data are parameters of the model instead.
- The `undefined` that `fetchNames` returns after a swallowed error is not modelled. `getNamesList` would throw on it.
- DOM lookup, node creation and removal, and event-listener wiring are not modelled: `onLoad`, the `getElementById`/`querySelector` calls, and the start button in `onCardClick`. The click handler is a flag on the image record.
- `setName`'s replacement of the name element's first child is not modelled. Only the selector it uses and the text it writes are.
- `startGame` and `handlError` are not modelled: one is a visibility toggle and the other has an empty body.
- The battle session, turns, HP tracking and outcome are not modelled, because the code does not implement them.
- `innerHTML` assignments are modelled as plain text. HTML parsing of move names and descriptions is not modelled.
- Pokedex.StatusCheck: the error is modelled as one `BadStatus` value. The source's `res.test()` is not a function and throws a TypeError, not an Error carrying the body text.
- JsText.AsciiUpper, Pokedex.Capitalize: upper-casing is modelled for the ASCII letters only, so a non-ASCII lower-case letter such as `é` stays unchanged where `toUpperCase` gives `É`. The one call in the code (pokedex.js:102) passes the clicked sprite's name, and the three clickable names are ASCII. Unicode case mappings, including the ones that change length (`ß` to `SS`), are not modelled.
- Decimal.IntToDecimal: HP and DP are modelled as integers. Fractions and the exponent notation JavaScript uses from 10^21 on are not modelled.
- Pokedex.DpNodes: a `dp` key present with a `null` value is not modelled.
- MoveSlots.AppendMoves: the four slot arrays are required to have the same length, one element per move button on the card. With arrays of different lengths, the source may fail at a different point, or behave the same. Longer images, DP or button arrays change nothing, because only the first `|moves|` slots are written and the hiding loop touches only one button; a shorter button array throws only in the hiding loop.
- MoveSlots.WriteSlot: slot `i` is required to exist in the name, icon and DP arrays. When the icon or DP array is shorter, pokedex.js:204 or :207 throws after :203 has already written the move name, and this partial write is not modelled.
- MoveSlots.FillSlots: the icon and DP arrays are required to have the name array's length. A shorter icon or DP array, where the loop at pokedex.js:202-216 throws part-way through a slot after writing its name, is not modelled; a longer one is not either, though it changes nothing.
- MoveSlots.HideExtraButtons: the button array is required to have the name array's length. pokedex.js:219-220 accepts any length; a shorter button array makes `BUTTONS[i]` undefined and throws, and that case is not modelled.
- MoveSlots.AppendMovesIntended: the same equal-length requirement as MoveSlots.AppendMoves, for the same reason; arrays of different lengths are not modelled.

## Findings

| source | as written | input that shows it | evidently intended | confidence | as-written member | corrected member |
|---|---|---|---|---|---|---|
| pokedex.js:219-221 | the hiding loop indexes `BUTTONS[i]` with the move count on every pass, so only one button is hidden | a card with 2 moves on a page with 4 move slots: button 3 stays visible | hide every button from the move count on, as the doc comment at pokedex.js:188-192 says | high (not executed) | `MoveSlots.HidingLoopMissesLastButton` | `MoveSlots.HideUnusedButtons` |
