# Pony template parser, modelled in Dafny

Pony writes HTML-like templates inside Rust source. A template is parsed from
the token trees of the host tokenizer by a recursive-descent parser that only
ever looks a few tokens ahead, or reads on a fork (a copy of the cursor whose
progress is thrown away). The template language has:

- elements `<name attrs>children</name>` and `<name attrs />`, whose names are
  paths such as `icon::Cactus`;
- fragments `<>children</>`;
- comments `<!-- ... -->` and plain text;
- mustaches `{expr}` and `{expr:spec}`, where the spec is a `std::fmt`-style
  format specifier;
- control blocks `{#if c} ... {:else if d} ... {:else} ... {/if}` and
  `{#match e} {:case p} ... {/match}`.

The model works on a sequence of token trees with a position:

- a brace, bracket or parenthesis group is one token, and its contents are a
  sequence of their own;
- a parser returns `Success(value, next)` or `Failure(error)`;
- a fork is the same position used in a second computation.

The files follow the source:

- `tokens.dfy`: tokens, results, errors and the cursor primitives.
- `collaborators.dfy`: the expression, pattern and path parsers the grammar
  delegates to (approximated, see below).
- `formatting.dfy`: the format-specifier grammar.
- `formatting_laws.dfy`: a printer for it, a round trip and the source's test
  cases.
- `mustache.dfy`: interpolation.
- `markup_leaves.dfy`: text, comments, attributes and tags.
- `block_tags.dfy`: the tags of `{#if}` and `{#match}`.
- `combinators.dfy`: the generic `parse_until` and `parse_divided_until`
  loops, as recursive functions with fuel. They come with soundness,
  completeness, error and progress lemmas, and with `while` methods proved
  equal to the functions.
- `markup.dfy`: the recursive grammar of children, elements, fragments,
  blocks and the root.
- `markup_laws.dfy`: termination, the failures of the source, and worked
  examples.
- `markup_loops.dfy`: the element and fragment loops written as the source
  writes them, proved equal to the recursive definitions.

The source's loops are unbounded, so every recursive parser takes a `fuel`
argument. `Failure(OutOfFuel)` stands for a parse that does not end.

`Grammar` switches between the variants the repository holds:

- `blocks`: `IfOnly` is `svelte/block.rs`, `IfAndMatch` is `svelte/blocks/`.
- `childBlocks`: whether a block may be a child. As written it may not.
- `nonEmptyText`: whether a text child that consumes nothing is refused. As
  written it is accepted.

The two boolean switches carry the corrections described under Findings.

## Model

| member | source | states |
|---|---|---|
| Formatting.Flip | src/syntax/formatting.rs:5-11 | `flip` fails exactly when the option holds an error, and `Unflip` undoes it |
| Formatting.FlipUnflip | src/syntax/formatting.rs:5-11 | `flip` is onto: every result of an option is the flip of exactly one optional result |
| Formatting.ParseDirection | src/syntax/formatting.rs:114-124 | succeeds exactly on `<`, `^` or `>`, consumes that one token and returns the direction it denotes |
| Formatting.ParseAlign | src/syntax/formatting.rs:83-87 | the fill is present exactly when a character literal comes first; the direction token ends the alignment |
| Formatting.ParseSign | src/syntax/formatting.rs:141-153 | succeeds exactly on `+` or `-`, one token, `Positive` exactly for `+`; otherwise the sign error |
| Formatting.ParseCount | src/syntax/formatting.rs:357-368 | succeeds exactly on an integer literal, a `-` directly before one included (its text is then the literal's with `-` in front), or on an identifier followed by `$`, and returns that literal or name |
| Formatting.ParsePrecision | src/syntax/formatting.rs:333-341 | `*` is `Star` and takes one token; anything else is a count, whose failure is passed on |
| Formatting.SplitZero | src/syntax/formatting.rs:240-252 | fails exactly when a longer literal starts with `0` not followed by a digit `1`-`9`: two leading zeros are the leading-zero error, any other character (`0x5`, `0u8`, `0_5`) the panic of rebuilding the rest as an integer literal; otherwise a leading `0` is the zero flag, the width then starts with a digit `1`-`9`, and `"0"` plus the width is the literal again |
| Formatting.FirstDot | src/syntax/formatting.rs:260-263 | the index of the first `.`, or the length when there is none |
| Formatting.ParseNumbers | src/syntax/formatting.rs:226-299 | nothing but an integer or float literal, possibly after a `-`, starts the numeric part; on success it has a width, a float literal brings a precision and has no suffix, and after a `-` the width is negative (starts with `-`) and carries no zero flag |
| Formatting.ParseIntNumbers | src/syntax/formatting.rs:228-253 | a precision is present exactly when `.` follows the (possibly negative) literal; a failing precision is reported before the leading-zero rule |
| Formatting.ParseFloatNumbers | src/syntax/formatting.rs:255-296 | a suffix or a missing `.` is an error; a fraction that does not start with a digit or holds an exponent (`6.5e3`) is the panic of rebuilding it as an integer literal; on success both width and precision are present |
| Formatting.ParseFormatType | src/syntax/formatting.rs:396-424 | `Display` exactly at the end of input; `?`, `x?`, `X?` or an identifier otherwise; `?` after any other identifier is the hex-suffix error |
| Formatting.Optional | src/syntax/formatting.rs:28-35 | an optional part is read only when its peek holds, and its error is passed on |
| Formatting.ParseFormat | src/syntax/formatting.rs:26-47 | an alignment is read exactly when its peek holds; the zero flag and a precision never come without a width |
| Formatting.ParseFromNumbers | src/syntax/formatting.rs:34-45 | a width is present exactly when a literal announces the numeric part |
| FormattingLaws.FormatRoundTrip | src/syntax/formatting.rs:26-47 | every well-formed specification, printed as tokens, is read back exactly and uses all of them |
| FormattingLaws.NumbersRoundTrip | src/syntax/formatting.rs:226-253 | the numeric part and the type, printed, are read back exactly |
| FormattingLaws.IntNumbersRoundTrip | src/syntax/formatting.rs:228-253 | a printed width (with zero flag and precision) is read back as the same three parts |
| FormattingLaws.TypeRoundTrip | src/syntax/formatting.rs:396-424 | every printed type is read back |
| FormattingLaws.PrecisionRoundTrip | src/syntax/formatting.rs:333-368 | every printed precision is read back |
| FormattingLaws.SplitZeroRoundTrip | src/syntax/formatting.rs:240-252 | a width written with its zero flag splits back into the same flag and width |
| FormattingLaws.ParseWellFormed | src/syntax/formatting.rs:26-47 | everything the parser returns is well-formed, so the round trip covers every result |
| FormattingLaws.FormattingTypeDisplay | src/syntax/formatting.rs:452-467 | the empty specification is `Display` and `?` is `Debug` |
| FormattingLaws.FormattingTypeLowerHex | src/syntax/formatting.rs:469-475 | `x?` is lower-hex debug |
| FormattingLaws.FormattingTypeUpperHex | src/syntax/formatting.rs:477-483 | `X?` is upper-hex debug |
| FormattingLaws.FormattingTypeOther | src/syntax/formatting.rs:485-491 | a lone identifier is an `Other` type |
| FormattingLaws.FormattingTypeBadHex | src/syntax/formatting.rs:493 | `o?` is refused |
| FormattingLaws.FormattingTypeLongBadHex | src/syntax/formatting.rs:494 | `adbjadsbvja?` is refused |
| FormattingLaws.FormattingWidth | src/syntax/formatting.rs:530-548 | `5` is width 5; `05` is the zero flag and width 5 |
| FormattingLaws.FormattingLeadingZeros | src/syntax/formatting.rs:240-242 | `005` is refused for its two leading zeros |
| FormattingLaws.ZeroHexPanics | src/syntax/formatting.rs:243-246 | `0x5` panics: `x5` is not an integer literal |
| FormattingLaws.ZeroSuffixPanics | src/syntax/formatting.rs:243-246 | `0u8` panics: `u8` is not an integer literal |
| FormattingLaws.ExponentPanics | src/syntax/formatting.rs:265-279 | the float `6.5e3` panics: its fraction `5e3` is not an integer literal |
| FormattingLaws.NegativeWidth | src/syntax/formatting.rs:220-228 | `#-5` is the alternate flag with width `-5`, the `-` being part of the literal |
| FormattingLaws.NegativePrecision | src/syntax/formatting.rs:357-361 | `5.-3` is width 5 with precision `-3` |
| FormattingLaws.NumbersWellFormed | src/syntax/formatting.rs:226-299 | every numeric part read obeys the leading-zero rule (a zero flag only before a width starting with `1`-`9`), and a named precision is not a keyword |
| FormattingLaws.FormattingPretty | src/syntax/formatting.rs:550-564 | `#` sets the alternate flag |
| FormattingLaws.FormattingSign | src/syntax/formatting.rs:566-588 | `+` and `-` are the two signs |
| FormattingLaws.FormattingAlign | src/syntax/formatting.rs:590-621 | `<`, `^` and `>` are the three directions without fill |
| FormattingLaws.FormattingFill | src/syntax/formatting.rs:622-646 | `'0'>` has fill `0` aligned right, and `'0'>6` adds width 6 |
| FormattingLaws.FormattingFloatWidth | src/syntax/formatting.rs:648-661 | `'0'>+#6.5` reads the float literal `6.5` as width 6 and precision 5 |
| FormattingLaws.FormattingFillDebug | src/syntax/formatting.rs:662-671 | `'2'>?` is fill `2`, right, debug |
| FormattingLaws.LeadingDotRejected | src/syntax/formatting.rs:220-224 | a specification beginning with `.` and no direction after it is refused with the identifier error |
| FormattingLaws.LeadingDotBeforeDirection | src/syntax/formatting.rs:104-124 | when a direction follows a leading `.`, the alignment is read, the `.` is no fill, and the direction error is reported |
| Interpolation.ParseMustacheInner | src/syntax/mustache.rs:16-25 | the expression is a non-empty prefix of the group; the formatting is present exactly when `:` follows the expression; the group is used up |
| Interpolation.ParseMustache | src/syntax/mustache.rs:14-26 | exactly one brace group; anything else is the braces error |
| Interpolation.ParseFormattingGroup | src/syntax/mustache.rs:48-55 | `:` then a specification; without the `:` the colon error |
| Interpolation.MustacheRoundTrip | src/syntax/mustache.rs:14-26 | a well-formed mustache printed as a brace group is read back exactly, as one token |
| Interpolation.MustacheFormatWellFormed | src/syntax/mustache.rs:48-55 | the formatting of every mustache read is well-formed |
| Interpolation.MustacheApple | src/syntax/mustache.rs:67-71 | `{apple:'2'>?}` is the expression `apple` with fill `2`, right, debug |
| MarkupLeaves.TextSpec | src/syntax/jsx.rs:365-376 | text is exactly the tokens up to the first `<`, `>` or brace group, and an error when none follows |
| MarkupLeaves.TextEmptyAtStop | src/syntax/jsx.rs:370 | at a stop, text succeeds without consuming anything |
| MarkupLeaves.ParseTextLoop | src/syntax/jsx.rs:365-376 | the `while` loop computes the text specification |
| MarkupLeaves.ParseComment | src/syntax/jsx.rs:412-427 | a comment starts with `<!--`, its contents are the tokens between that and a `-->` that closes it, and it never runs out of fuel |
| MarkupLeaves.ParseCommentLoop | src/syntax/jsx.rs:412-427 | the `while` loop computes the comment specification |
| MarkupLeaves.CommentRoundTrip | src/syntax/jsx.rs:412-448 | contents without `-->`, printed between the comment delimiters, are read back |
| MarkupLeaves.ParseBracedExpr | src/syntax/jsx.rs:307-314 | one brace group whose contents are one whole expression |
| MarkupLeaves.ParseAttributeValue | src/syntax/jsx.rs:289-296 | a string literal or a braced expression, one token; anything else is the value error |
| MarkupLeaves.ParseSpread | src/syntax/jsx.rs:244-254 | a brace group holding `..` and an expression |
| MarkupLeaves.ParseNamed | src/syntax/jsx.rs:262-281 | a key, with an initializer exactly when `=` follows it |
| MarkupLeaves.ParseAttribute | src/syntax/jsx.rs:226-233 | a brace group is a spread, an identifier is named, anything else is refused; each attribute consumes input |
| MarkupLeaves.AttrsEnd | src/syntax/jsx.rs:170-176 | the attribute loop ends at `>` or `/`, or with an attribute's error, and never runs out of fuel |
| MarkupLeaves.ParseAttrsLoop | src/syntax/jsx.rs:170-176 | the `while` loop computes the attribute specification |
| MarkupLeaves.ParseTagStart | src/syntax/jsx.rs:178-203 | `<`, a path and attributes, stopping before `>` or `/` |
| MarkupLeaves.ParseOpening | src/syntax/jsx.rs:197-204 | the tag start followed by `>`, exactly |
| MarkupLeaves.ParseSelfClosing | src/syntax/jsx.rs:178-186 | the tag start followed by `/` `>`, exactly |
| MarkupLeaves.ParseClosing | src/syntax/jsx.rs:206-212 | `<` `/`, a path and `>` |
| MarkupLeaves.NamesMatchPrefix | src/syntax/jsx.rs:149-155 | closing names match the opening name over the shorter of the two, so one must be a prefix of the other |
| BlockTags.InsideBraces | src/syntax/svelte/block.rs:55-61 | the contents of the brace group ahead, on a fork, exactly when one is next |
| BlockTags.ElsePeek | src/syntax/svelte/blocks/if_block.rs:210-219 | `{:else}` is recognised only when no `if` follows, so it never overlaps `{:else if}` |
| BlockTags.ExpectWords | src/syntax/svelte/blocks/if_block.rs:221-237 | keywords in a row, each at its position |
| BlockTags.ParseBareTag | src/syntax/svelte/blocks/if_block.rs:135-145 | a tag of exactly two words, recognised by its own peek, one token long |
| BlockTags.ParseExprTag | src/syntax/svelte/blocks/if_block.rs:109-122 | a tag whose words are followed by an expression that uses up the group |
| BlockTags.ParseIfDivider | src/syntax/svelte/blocks/if_block.rs:163-175 | `{:else if}` is tried before `{:else}`; the result is `ElseIf` exactly when that peek holds; anything else is the divider error |
| BlockTags.ParseIfOpening | src/syntax/svelte/blocks/if_block.rs:109-133 | `{#if condition}` is one token, recognised by its peek |
| BlockTags.ParseMatchOpening | src/syntax/svelte/blocks/match_block.rs:88-120 | `{#match scrutinee}` is one token, recognised by its peek |
| BlockTags.ParseIfClosing | src/syntax/svelte/blocks/if_block.rs:135-156 | succeeds exactly on the group `{/if}` |
| BlockTags.ParseMatchClosing | src/syntax/svelte/blocks/match_block.rs:122-149 | succeeds exactly on the group `{/match}` |
| BlockTags.ParseCase | src/syntax/svelte/blocks/match_block.rs:151-176 | `{:case pattern}`, recognised by its peek, one token; the pattern is the rest of the group and never holds `if` |
| BlockTags.CaseRoundTrip | src/syntax/svelte/blocks/match_block.rs:151-176 | a case tag printed around a well-formed pattern is read back with it |
| BlockTags.CaseGuardRefused | src/syntax/svelte/blocks/match_block.rs:162-164 | `{:case pattern if guard}` is refused with the unexpected-token error: the pattern ends at `if` and the guard is left over |
| BlockTags.ExprTagRoundTrip | src/syntax/svelte/blocks/if_block.rs:109-133 | a tag printed around a well-formed expression is read back with it |
| BlockTags.ExprTagPeek | src/syntax/svelte/blocks/match_block.rs:111-120 | every printed tag is recognised by its own peek |
| Combinators.UntilSound | src/syntax/svelte/blocks/mod.rs:59-70 | a successful `parse_until` is a run of items that ends at the first place the stop holds |
| Combinators.UntilComplete | src/syntax/svelte/blocks/mod.rs:59-70 | every such run, given fuel for its length, is what `parse_until` returns |
| Combinators.UntilError | src/syntax/svelte/blocks/mod.rs:59-70 | a failing `parse_until` fails with the error of the first item that fails, or runs out of fuel |
| Combinators.UntilProgress | src/syntax/svelte/blocks/mod.rs:59-70 | with items that always advance within a bound, the loop never runs out of fuel and ends within the bound |
| Combinators.NoProgressSpins | src/syntax/svelte/blocks/mod.rs:65-67 | an item that succeeds without advancing, where the stop fails, makes the loop spin |
| Combinators.DividedSound | src/syntax/svelte/blocks/mod.rs:72-86 | a successful `parse_divided_until` is a run of groups, each a divider followed by children up to the next divider or the stop |
| Combinators.DividedComplete | src/syntax/svelte/blocks/mod.rs:72-86 | every such run of groups, given fuel, is what `parse_divided_until` returns |
| Combinators.DividedError | src/syntax/svelte/blocks/mod.rs:72-86 | a failing `parse_divided_until` fails with its first divider's or child's error, or runs out of fuel |
| Combinators.DividedProgress | src/syntax/svelte/blocks/mod.rs:72-86 | with advancing dividers and children, the divided loop never runs out of fuel |
| Combinators.ParseUntilLoop | src/syntax/svelte/block.rs:62-73 | the `while` loop computes `parse_until` |
| Combinators.ParseDividedUntilLoop | src/syntax/svelte/block.rs:75-89 | the `while` loop computes `parse_divided_until` |
| Markup.ParseChild | src/syntax/jsx.rs:326-346 | each kind of child begins with its own lookahead; a block child needs the correction and a mustache is never read where it applies; with empty text refused, text is never empty |
| Markup.ParseFragment | src/syntax/jsx.rs:46-62 | `<>` children `</>`, ending just after a `</>` (the children themselves: MarkupLaws.FragmentSound) |
| Markup.ParseElement | src/syntax/jsx.rs:99-117 | decided on a fork: self-closing exactly when `/` follows the tag start |
| Markup.ParseClosed | src/syntax/jsx.rs:135-167 | keeps the opening's name and attributes, and ends with a closing tag whose name matches it (the children themselves: MarkupLaws.ClosedSound) |
| Markup.CloseAfter | src/syntax/jsx.rs:139-160 | at the end of input, the error names the open element; otherwise the closing tag is read |
| Markup.ParseBlock | src/syntax/svelte/blocks/mod.rs:28-40 | an `If` exactly when the if-opening peek holds; with no block ahead, the unimplemented panic |
| Markup.ParseIf | src/syntax/svelte/blocks/if_block.rs:72-83 | starts at an if-opening and ends just after `{/if}` (children and groups: MarkupLaws.IfSound) |
| Markup.ParseMatch | src/syntax/svelte/blocks/match_block.rs:58-69 | starts at a match-opening and ends just after `{/match}` (comments and cases: MarkupLaws.MatchSound) |
| Markup.ParseRoot | src/syntax/jsx.rs:28-41 | a fragment exactly when `<` `>` begins the input, an element when `<` and an identifier do, otherwise the root error |
| MarkupLaws.FragmentSound | src/syntax/jsx.rs:46-62 | the children of a fragment are the run of children from just after `<>` to the first `</>`, which ends it |
| MarkupLaws.ClosedSound | src/syntax/jsx.rs:135-167 | the children of an element are the run of children from just after the opening tag to the first closing tag matching its name, and that closing tag gives the closing name and the end |
| MarkupLaws.IfSound | src/syntax/svelte/blocks/if_block.rs:72-83 | an if block is its opening, the children up to the first divider or `{/if}`, then the groups each a divider with the children up to the next divider or `{/if}`, then `{/if}` |
| MarkupLaws.MatchSound | src/syntax/svelte/blocks/match_block.rs:58-69 | a match block is its opening, the comments up to the first case or `{/match}`, then the cases each a `{:case}` with the children up to the next case or `{/match}`, then `{/match}` |
| MarkupLaws.ChildSettles | src/syntax/jsx.rs:326-346 | with empty text refused, every child either fails with a real error or consumes input within bounds, given fuel for the input length |
| MarkupLaws.FragmentSettles | src/syntax/jsx.rs:46-54 | the same for fragments |
| MarkupLaws.ClosedSettles | src/syntax/jsx.rs:135-167 | the same for elements with children |
| MarkupLaws.ElementSettles | src/syntax/jsx.rs:99-117 | the same for elements of either kind |
| MarkupLaws.BlockSettles | src/syntax/svelte/blocks/mod.rs:28-40 | the same for blocks |
| MarkupLaws.IfSettles | src/syntax/svelte/blocks/if_block.rs:72-83 | the same for if blocks |
| MarkupLaws.MatchSettles | src/syntax/svelte/blocks/match_block.rs:58-69 | the same for match blocks |
| MarkupLaws.RootSettles | src/syntax/jsx.rs:28-41 | with empty text refused, parsing a whole template always ends |
| MarkupLaws.EmptyTextChild | src/syntax/jsx.rs:365-376 | at a stray `>`, or a `<` that opens nothing, a child is empty text as written and an error once empty text is refused |
| MarkupLaws.StallSpins | src/syntax/jsx.rs:49-51 | a children loop that reaches such a place without stopping never ends |
| MarkupLaws.StrayGtSpins | src/syntax/jsx.rs:49-51 | `<>></>` never finishes as written |
| MarkupLaws.StrayGtRefused | src/syntax/jsx.rs:49-51 | `<>></>` is refused with the unexpected-token error once empty text is refused |
| MarkupLaws.MismatchedSpins | src/syntax/jsx.rs:139-166 | `<a></b>` never finishes as written |
| MarkupLaws.MismatchedRefused | src/syntax/jsx.rs:139-166 | `<a></b>` is refused once empty text is refused |
| MarkupLaws.BlockReadAsMustache | src/syntax/jsx.rs:336-338 | without block children, a block opener among children is read as a mustache and fails for its expression |
| MarkupLaws.NestedIfAsWritten | src/syntax/svelte/blocks/if_block.rs:288-313 | `{#if c}{#if d}{/if}{/if}` is refused as written |
| MarkupLaws.NestedIfCorrected | src/syntax/svelte/blocks/if_block.rs:288-313 | with block children it parses to the outer block holding the inner one |
| MarkupLaws.UnclosedNamesElement | src/syntax/jsx.rs:140-142 | `<a>` with nothing after it fails with the error naming `a` |
| Collaborators.PathRoundTrip | src/syntax/jsx.rs:220-221 | an element name printed as identifiers (or path keywords after the first) joined by `::`, followed by anything but `:`, is read back exactly |
| MarkupLaws.KeywordSegment | src/syntax/jsx.rs:220-221 | `a::self` is a two-segment element name: after `::` a path keyword is a segment |
| MarkupLaws.ShorterCloserAccepted | src/syntax/jsx.rs:149-155 | `<icon::Cactus></icon>` is accepted, because names are compared over the shorter path |
| MarkupLaws.IfElseParses | src/syntax/svelte/blocks/if_block.rs:265-273 | `{#if c}a{:else}b{/if}` has one child before the `{:else}` group and one in it |
| MarkupLaws.MatchOnlyComments | src/syntax/svelte/blocks/match_block.rs:62-64 | before the first case only comments are read; anything else fails with the comment error |
| MarkupLoops.ParseFragmentLoop | src/syntax/jsx.rs:46-54 | the fragment loop computes the fragment specification |
| MarkupLoops.ParseClosedLoop | src/syntax/jsx.rs:135-167 | the element's `loop` computes the element specification, including the early error returns |

## Left out

- Spans and source positions are left out: no rule reads them.
- Spacing of punctuation is not modelled: two `:` or two `.` tokens in a row are read as `::` or `..` whatever lies between them. The host parser wants them joint in element names (jsx.rs:103, 148, 221), in the spread's `..` (jsx.rs:250) and inside expressions, so the model accepts `<a: :b/>` and `{. .x}`, which the source refuses.
- Error messages are reduced to error kinds.
- The `Debug` implementations and `pretty_rust` print values and are not part of this model.
- `Zero::peek` (formatting.rs:190-200) is never called by the parser, so it is not modelled.
- Collaborators.ParseExpr: the host language's expression parser is approximated. An expression is a non-empty run of token trees up to the first lone `:`. Its first token may be punctuation only if an expression can begin with it. Code that depends on real expression syntax is not captured.
- Collaborators.ParsePattern: the host language's pattern parser is approximated the same way, except that a pattern also ends before the keyword `if`. Code that depends on real pattern syntax is not captured.
- Collaborators.ParsePath: a path is identifiers joined by `::`; after `::` the path keywords `self`, `super`, `crate`, `Self` and `try` are segments too (MarkupLaws.KeywordSegment). A leading `::`, a keyword as the first segment and generic arguments are not modelled.
- Case guards: `{:case pattern if guard}` is refused (BlockTags.CaseGuardRefused), because the code reads only a pattern (match_block.rs:162-164) and the guard is left over in the group.
- Standalone precision: `.*`, `.5` and `.i$` are refused, because `Numbers::peek` (formatting.rs:220-224) requires a literal. The model follows the code (FormattingLaws.LeadingDotRejected), although the tests at src/syntax/formatting.rs:497-528 expect these to parse.
- Tokens.Finished: tokens left unread inside a group raise an error when the group's field is parsed. In the source that error is deferred to the end of the enclosing parse.
- Fuel: an unbounded loop is modelled with fuel. `Failure(OutOfFuel)` stands for non-termination, and the spins are stated for every fuel.
- Panics: `unimplemented!` in Block::parse, the `unwrap` of a closing path and the panics of rebuilding part of a literal as an integer literal (formatting.rs:245, 277) are modelled as `Failure(Panic(...))` results.
- Formatting.SplitZero: after a leading `0` only the next character is checked; a remainder that starts with a digit but is not a valid integer literal in some later character is taken as a width, where the host's literal constructor would panic.
- Formatting.ParseFloatNumbers: the part before `.` is taken as the tokenizer writes it (digits, possibly after `-`); the fraction is checked for a leading digit and an exponent only, not for every rule of an integer literal.
- Markup.ParseFragment, Markup.ParseClosed, Markup.ParseIf, Markup.ParseMatch: their own contracts state the delimiters; the runs of children, groups and cases between them are stated by MarkupLaws.FragmentSound, MarkupLaws.ClosedSound, MarkupLaws.IfSound and MarkupLaws.MatchSound.
- Recursion depth and stack exhaustion are not modelled.

## Findings

| source | as written | input that shows it | evidently intended | confidence | as-written member | corrected member |
|---|---|---|---|---|---|---|
| src/syntax/jsx.rs:326-346 | the child dispatch has no block case, so a block opener among children is parsed as a mustache, whose expression cannot begin with `#` | `{#if c}{#if d}{/if}{/if}` (the nested test at src/syntax/svelte/blocks/if_block.rs:288-313) | a nested block is a child, tried before the mustache since both begin with a brace group | not executed | MarkupLaws.NestedIfAsWritten | MarkupLaws.NestedIfCorrected |
| src/syntax/jsx.rs:365-376 | text succeeds empty at a `>` or a `<` that opens nothing, and the children loops at jsx.rs:49-51 and jsx.rs:139-166 push it forever | `<>></>`, `<a></b>` | an empty text child is an error, so a template that is not well-formed is refused and every parse ends | not executed | MarkupLaws.StrayGtSpins | MarkupLaws.RootSettles |
