# Callimachus browser scripts: models and proofs

Callimachus pages carry a good deal of data processing in the browser. This project models seven of its
algorithms and proves what each is for.

1. **Form submission** (`RdfText`, `SparqlText`, `UpdateWriter`, `Graphs`, `TripleDiff`, `Renaming`, `GraphUpdate`,
   `FormSubmit`). An RDF form is read into a map of triples keyed by their text, compared with the stored map, both
   differences are closed over blank nodes, and a SPARQL Update is written. Proved: the text of a triple identifies
   the triple; a form holds exactly the emissions that a path of blank objects leads to from its own resource; the two
   loops move exactly the statements tied by blank nodes to a difference, whatever the iteration order; the payload
   lists exactly those statements, and a reader that follows the grammar of SPARQL 1.1 finds exactly them in it if and
   only if each has a form in SPARQL, which a subject `_:address-1` that is to be deleted has not; and the update
   rebuilds the revised graph, although inserting renames blank nodes, exactly when no blank node is both kept and
   added. Forms are safe against every stored graph exactly when statements sharing a blank node are joined by a chain
   of links; the form reader's rule for blank subjects makes that true unless a blank node that is never described is
   used twice.
2. **The document replica of the JSON editor** (`DocText`, `FlatText`, `Document`, `Anchor`, `Worker`). An array of
   lines is spliced, every primitive edit emits a delta, a replica in a worker applies the deltas, deltas can be
   reverted, and anchors follow them. Proved: for every public method that changes the document, the replica agrees
   after one edit exactly when an edit of a single line names a line that is there and puts no line break into it; it
   agrees after any run of such edits, undos and replays among them; of an edit of single lines or whole lines,
   exactly when undoing it restores the document, and so for whole runs; edits of lines are edits of the joined
   string, with the exact bound at which long insertions stop being so and a text past it; anchors move as markers in
   that string.
3. **The JSON parser of the worker** (`JsonText`, `JsonLetters`, `JsonPrint`, `JsonParser`), whose methods share one
   position. Proved: each method computes the outcome function of its position, and parsing inverts every concrete way
   of printing a value. A printed text is refused exactly when an object in it repeats one of its own keys, where
   `__proto__` is one only after an earlier `__proto__` has cut the object off from the accessor it inherits (with
   null, or with an object that is cut off itself). What the single code units stand for is stated in numbers.
4. **The RDFa parser** (`RdfaStore`, `RdfaSteps`, `RdfaMeaning`, `RdfaVisit`, `RdfaLists`, `RdfaReadBack`,
   `RdfaProcess`): one queue of elements and list mappings. Proved: the queue computes the recursive traversal;
   elements are visited once each in document order; subject, object and typed node are the first in an order of
   names; a visit adds exactly the triples and list items of its attributes, whose properties have the value of their
   kind; children speak of the object of their parent, or else of its subject; types are said of the node they belong
   to; triples left hanging by an element are completed by its descendants; a printed list mapping is never written to
   again; every printed list reads back through rdf:rest from the generated triples, and from the whole graph if the
   document never means rdf:first or rdf:rest, or never a label that the parser generates (`RdfaLabels`). In any one
   scope of a page where both are meant, some document has a list that does not read back. `UriPath` and `UriRfc`
   model the URIs it normalises: the in-place splicing loop is a one-pass stack, and on whole paths it agrees with
   section 5.2.4 of RFC 3986 under an exact condition on the path.
5. **The Creole scanner** (`RuleScanner`): a leftmost-match scan that shifts the matches it has cached. Proved equal
   to the scan without a cache for patterns that do not look at what precedes them, which cuts the text up at leftmost
   whole matches, with a pattern that does and is missed; for any patterns without empty matches it is the scan by the
   cache, no text is lost, and every piece is a match found at its place.
6. **Tag folding in the editor** (`TagFolding`): stack scans in both directions that tolerate unclosed void elements.
   Proved: from either end of an element that is not void, the same range, and a void element for which it is not so.
7. **The RDF/XML serializer and the wait indicator** (`XmlText`, `RdfXml`, `RdfXmlReader`, `RdfXmlSerializer`,
   `WaitCounter`). `RdfXmlReader` reads a document back as RDF/XML: attribute values and text are decoded as XML has
   them, and names are expanded by the document's own header. Proved: what is read is what was added, each subject
   once and in order, exactly when every triple survives a writer that escapes ampersands in URIs of resources and in
   text, and nothing in other attributes; a property whose namespace has an ampersand makes a document that is not
   XML. And: the wait class is on the page while anything is open and off when nothing is open and no timer is left,
   for every interleaving of events and timers.

Objects with fields are classes here, dictionaries are maps or ordered sequences in fields, and loops are loops;
each such method is proved against a function or a predicate, and the lemmas are about those. `dafny verify
dfyconfig.toml` checks everything.

`Helpers` holds what several modules need. JavaScript strings are `seq<char>`, except in the JSON parser, which
works on UTF-16 code units. Values that JavaScript treats as false (an absent datatype, language, subject or prefix) are the empty string.

## Model

| member | source | states |
|---|---|---|
| RdfText.EscapeIriIsPerCharacter | webapp/scripts/submit-update.js:335 | the two chained replacements of an IRI escape each character once, backslash first |
| RdfText.EscapeLiteralIsPerCharacter | webapp/scripts/submit-update.js:345-351 | the five chained replacements of a literal escape each character once, backslash first |
| RdfText.TermDecodes | webapp/scripts/submit-update.js:327-367 | a written term decodes to the blank node, IRI, tagged, plain or typed literal it was written for, so no two terms are written the same |
| RdfText.LineDecodes | webapp/scripts/submit-update.js:286-295 | a written line decodes to the statement of its triple, leaving the rest of the text |
| RdfText.TagAppends | webapp/scripts/submit-update.js:354-357 | a language tag is stripped one character at a time |
| RdfText.TagIsKept | webapp/scripts/submit-update.js:354-357 | a tag of letters, digits and hyphens, such as en-GB, is kept as it is |
| RdfText.TagIsStripped | webapp/scripts/submit-update.js:354-357 | of other characters nothing is left |
| RdfText.BlankAsWritten | webapp/scripts/submit-update.js:327-331 | a term that starts with `_:` and has no datatype is written `_:bn` and its label |
| RdfText.IriAsWritten | webapp/scripts/submit-update.js:332-337 | any other term without a datatype is written in angle brackets |
| RdfText.LiteralsAsWritten | webapp/scripts/submit-update.js:338-366 | a literal is written in quotes, with its language if it is an rdf:langString that has one, with nothing if it is an xsd:string, and with its datatype otherwise |
| SparqlText.TermReadsIff | webapp/scripts/submit-update.js:305-367 | a written term, or its form in a pattern, is one term of SPARQL with this meaning exactly when its IRI, label, variable name or language tag is one in SPARQL's grammar; literals always are |
| SparqlText.LineReadsIff | webapp/scripts/submit-update.js:286-325 | a written line, or pattern, is read by SPARQL's grammar as the statement meant exactly when all its terms are such and the property is an IRI |
| SparqlText.LinesReadIff | webapp/scripts/submit-update.js:203-213 | a block of lines is read as what they mean, in order, exactly when each of them is |
| SparqlText.MeantIsInjective | webapp/scripts/submit-update.js:308-331 | renaming labels for SPARQL, or turning them into variables, makes no two statements the same |
| SparqlText.HyphenIsNoVariable | webapp/scripts/submit-update.js:308-321 | the subject `_:address-1` has a form among inserted statements and none in a pattern |
| SparqlText.HyphenBreaksUpdate | webapp/scripts/submit-update.js:198-214 | an update that deletes something about `_:address-1` first is not SPARQL at all |
| RdfText.SameTextIffSameStatement | webapp/scripts/submit-update.js:297-303 | two triples have the same line exactly when they are the same RDF statement, so comparing by hash is comparing by term |
| UpdateText.UpdateWriter.Term | webapp/scripts/submit-update.js:327-367 | the pieces pushed for a term append its text |
| UpdateText.UpdateWriter.Triple | webapp/scripts/submit-update.js:286-295 | the pieces pushed for a triple append its line |
| UpdateText.UpdateWriter.Pattern | webapp/scripts/submit-update.js:308-325 | the pieces pushed for a pattern append its line |
| UpdateText.Hash | webapp/scripts/submit-update.js:297-303 | the hash of a triple is its line, written by a fresh writer |
| SparqlText.UpdateReadsIff | webapp/scripts/submit-update.js:198-220 | the payload for two lists of triples is read by SPARQL's grammar as deleting the patterns and then inserting the statements, in order, empty sides included, exactly when all of them have a form in SPARQL |
| UpdateText.PayloadReadsIff | webapp/scripts/submit-update.js:198-220 | whatever the order of iteration, the payload lists each removed and each added triple once, and is read as deleting the patterns of the ones and inserting the others exactly when every one has a form in SPARQL |
| UpdateText.WriteLines | webapp/scripts/submit-update.js:203-213 | a for-in loop over a map appends one line for each entry, in some order |
| UpdateText.AsSparqlUpdate | webapp/scripts/submit-update.js:198-220 | the text returned is a payload for the two maps |
| Graphs.MovedIsClosed | webapp/scripts/submit-update.js:175-196 | the statements tied to a difference form a closed set: whatever links to one of them is one of them |
| Graphs.BothSidesClosed | webapp/scripts/submit-update.js:60-65 | the removed side stays closed in the stored graph and the added side in the revised one |
| Graphs.Conservation | webapp/scripts/submit-update.js:57-65 | removed is stored, added is revised, an added statement that was stored is removed too, and removing and adding gives the revised graph |
| Graphs.MovedIsTheOnlyOne | webapp/scripts/submit-update.js:57-65 | a closed set that holds the differences and nothing unreached is the moved set: the closure is determined |
| TripleDiff.KeyedStatements | webapp/scripts/submit-update.js:154-173 | in maps keyed by line, equal keys are equal statements, both ways |
| TripleDiff.BringsIsLinked | webapp/scripts/submit-update.js:180-190 | the two tests of the search hold exactly when the two statements share a blank node, subject to object |
| TripleDiff.AddBoundedDescription | webapp/scripts/submit-update.js:178-196 | the recursive search terminates, takes only connected triples of its store into both maps, leaves everything linked to the triple, and to what it took, taken, and keeps the conservation law between stored, revised, removed and added keys |
| TripleDiff.TakeIn | webapp/scripts/submit-update.js:183-184 | writing one triple into both maps and describing it in turn keeps what the search promises, the conservation law included |
| TripleDiff.DiffTriples | webapp/scripts/submit-update.js:154-173 | added and removed are the entries in one map whose key is not in the other |
| TripleDiff.CloseOver | webapp/scripts/submit-update.js:60-65 | one closure loop leaves its map closed in its store, with nothing unreached, in any iteration order and whether or not keys added on the way are visited; the conservation law holds before and after every entry |
| TripleDiff.StillClosed | webapp/scripts/submit-update.js:60-65 | the second loop, which also writes into the first loop's map, leaves that map closed |
| TripleDiff.ExactlyMoved | webapp/scripts/submit-update.js:57-65 | after both loops the two maps hold exactly the moved statements of either graph |
| TripleDiff.RemovedAndAdded | webapp/scripts/submit-update.js:57-65 | diff and both loops: removed and added are the moved statements of the stored and of the revised graph, and the conservation law holds |
| GraphUpdate.RebuildsIffNothingShared | webapp/scripts/submit-update.js:57-69 | for all stored and revised graphs, the update yields the revised graph up to isomorphism, whatever fresh labels are picked, exactly when no blank node occurs in both a kept and an added statement |
| Renamings.RenamedBlanks | webapp/scripts/submit-update.js:209-214 | renaming maps the blank nodes of a graph onto those of its image, and no others |
| Renamings.DisjointRebuilds | webapp/scripts/submit-update.js:198-220 | when kept and added statements share no blank node, inserting the added ones under fresh labels gives a graph isomorphic to both together |
| Renamings.RebuildsDisjoint | webapp/scripts/submit-update.js:198-220 | and conversely: if the result is isomorphic, they shared none |
| Renamings.FreshRenaming | webapp/scripts/submit-update.js:209-214 | fresh labels for the inserted blank nodes always exist, so the claim above is never empty |
| GraphUpdate.SafeIffHoldsTogether | webapp/scripts/submit-update.js:175-196 | a revised graph is rebuilt from every stored graph exactly when statements sharing a blank node are joined by a chain of links |
| GraphUpdate.ApartBreaks | webapp/scripts/submit-update.js:175-196 | for any two statements that share a blank node and are not joined, a stored graph from which the update goes wrong |
| GraphUpdate.IntroducedHoldsTogether | webapp/scripts/submit-update.js:117-142 | if every blank subject is also an object and no undescribed blank node is used twice, statements sharing a blank node are joined |
| GraphUpdate.SharedLeafIsSplit | webapp/scripts/submit-update.js:188-195 | a concrete form that meets the subject rule, uses an undescribed blank node twice, and is not rebuilt |
| FormSubmit.ParseRDF | webapp/scripts/submit-update.js:117-142 | the map holds exactly the lines that paths lead to: emissions in order, the first about the form's resource or a fragment of it, each next one about the blank object of the one before, none below a self-reference |
| FormSubmit.KeptIsReached | webapp/scripts/submit-update.js:127-138 | the test of the loop keeps an emission exactly when such a path leads to it |
| FormSubmit.OwnIsKept | webapp/scripts/submit-update.js:128 | an emission about the form's resource, or about it with `#` and any fragment, is in the map under its line |
| FormSubmit.BlankObjectIsKept | webapp/scripts/submit-update.js:128-138 | when an emission with a blank object is kept, every later one about this blank node is too |
| FormSubmit.OthersAreNotKept | webapp/scripts/submit-update.js:128 | no triple about any other IRI is in the map, such as one that only starts like the form's |
| FormSubmit.ParsedSubjectsIntroduced | webapp/scripts/submit-update.js:127-138 | every blank subject of a parsed form is also an object in it |
| FormSubmit.SubmitRDFForm | webapp/scripts/submit-update.js:51-69 | the revised graph is that of the lines that paths from the form lead to; the payload of a submitted form lists the moved statements of both sides, each once; it is read as deleting and inserting exactly them if and only if each has a form in SPARQL; and the update rebuilds the revised graph when no undescribed blank node is used twice |
| DocText.RevertUndoes | webapp/assets/ace/worker-json.js:1893-1908 | undoing a delta that describes an edit of these lines restores the lines, for all five kinds of edit |
| DocText.RevertedUndoes | webapp/assets/ace/worker-json.js:1893-1908 | undoing a whole log of edits backwards restores the lines it started from |
| DocText.EmitsThen | webapp/assets/ace/worker-json.js:1668-1689 | logs that replay to an intermediate document and on from it compose into a log that replays to the end |
| DocText.ChunksMakeWhole | webapp/assets/ace/worker-json.js:1713-1736 | inserting lines chunk by chunk, the last chunk first, inserts them all in order, at any row of the document |
| DocText.InsertTextDelta | webapp/assets/ace/worker-json.js:1758-1780 | the delta of text put into one line replays to the same lines exactly when the text has no line break and the row is there |
| DocText.InsertManyParts | webapp/assets/ace/worker-json.js:1678-1688 | first part, line break, whole lines and last part together are the insertion of the text |
| DocText.RemoveFromMidLine | webapp/assets/ace/worker-json.js:1792-1806 | cutting the last row, removing whole rows, cutting the first and joining is the removal of the range |
| FlatText.SpliceIsReplace | webapp/assets/ace/worker-json.js:1585-1587 | replacing rows of a document by glued lines replaces, in the joined text, the span between the two offsets |
| FlatText.SplitJoins | webapp/assets/ace/worker-json.js:1598-1600 | splitting a text into lines and joining them only rewrites its line breaks |
| FlatText.InsertsIntendedIff | webapp/assets/ace/worker-json.js:1713-1736 | an insertion yields the intended lines exactly when the text has at most 0xFFFF lines between its first and last, or ends in a line break |
| FlatText.LongInsertionGoesAstray | webapp/assets/ace/worker-json.js:1713-1736 | 0x10001 line breaks and a letter, inserted into an empty document: the letter ends up in another line |
| FlatText.InsertIsReplace | webapp/assets/ace/worker-json.js:1668-1689 | within that bound, inserting is splicing the text into the joined string at the position's offset |
| FlatText.InsertEndIff | webapp/assets/ace/worker-json.js:1668-1736 | the returned position is where the inserted text ends exactly when there are at most 0xFFFF lines in between |
| FlatText.RemoveIsReplace | webapp/assets/ace/worker-json.js:1781-1811 | removing a range deletes the span between its offsets from the joined string |
| FlatText.OffsetDetermines | webapp/assets/ace/worker-json.js:1480-1492 | an offset names one position |
| Documents.Document.constructor | webapp/assets/ace/worker-json.js:1563-1575 | a new document has one empty line, or the lines of its text, and the text's first line break for its own |
| Documents.Document.FromLines | webapp/assets/ace/worker-json.js:1568-1571 | a document made from an array has exactly those lines, or one empty line |
| Documents.FirstNewLineIff | webapp/assets/ace/worker-json.js:1601-1608 | the line break that is detected in a text is its first one, of the three kinds, or "\n" if it has none |
| Documents.NewLineOfMode | webapp/assets/ace/worker-json.js:1609-1620 | the line break written is that of the mode, or the detected one |
| Documents.Document.Insert | webapp/assets/ace/worker-json.js:1668-1689 | the new lines and the returned position of an insertion; that the emitted deltas replay to the same lines and fit them; and that a document of at most one line takes over the first line break of the text, and no other does |
| Documents.Document.InsertLines | webapp/assets/ace/worker-json.js:1713-1736 | chunked or not, at any row, the lines are spliced in, the emitted deltas replay to the same, the returned row counts the last chunk only, and undoing the deltas restores the lines exactly when the row was there or just past the end |
| Documents.Document.InsertNewLine | webapp/assets/ace/worker-json.js:1737-1757 | the line is broken at the clipped position and the delta, a text insertion, replays to the same; undoing it restores the lines exactly when there were any |
| Documents.Document.InsertInLine | webapp/assets/ace/worker-json.js:1758-1780 | text goes into one line; the delta replays to the same exactly when the text is empty, or has no line break and the row is there, and is undone exactly when the text is empty or the position is in the document |
| Documents.Document.Remove | webapp/assets/ace/worker-json.js:1781-1811 | the range is removed, or crossed if it ends on an earlier row than it starts; the deltas of its up to four steps replay to the same lines, and fit them if the range is in order |
| Documents.Document.RemoveInLine | webapp/assets/ace/worker-json.js:1812-1829 | a span of one line is cut; the delta replays to the same exactly when the row is there or the span is empty, and is undone exactly when what was cut is put back in one piece |
| Documents.Document.RemoveLines | webapp/assets/ace/worker-json.js:1830-1842 | whole lines go, as many as there are; the delta replays to the same, and undoing it always restores them |
| Documents.Document.RemoveNewLine | webapp/assets/ace/worker-json.js:1843-1858 | two lines are joined; the delta, a text removal, replays to the same exactly when the first row is there, and is undone exactly when both are |
| Documents.Document.SetValue | webapp/assets/ace/worker-json.js:1580-1584 | everything is removed, the text inserted, its first line break taken over, and the deltas replay to the same |
| Documents.Document.ApplyDeltas | webapp/assets/ace/worker-json.js:1878-1892 | any log is replayed in order, through insert and remove, to its effect, and what is emitted on the way replays to the same |
| Documents.Document.RevertDeltas | webapp/assets/ace/worker-json.js:1893-1908 | any log is undone backwards; undoing a log of edits that led from some lines to the present ones restores those lines, and what is emitted on the way describes edits in turn |
| Documents.PrefixFits | webapp/assets/ace/worker-json.js:1893-1908 | each delta of a fitting log fits the lines its predecessors leave |
| Documents.FittingIsReversible | webapp/assets/ace/worker-json.js:1893-1908 | on the lines a log of edits led to, each of its deltas, from the last one on, undoes an edit |
| Anchors.Anchor.OnChange | webapp/assets/ace/worker-json.js:2393-2456 | the anchor stays a valid position and its offset moves as a marker in a plain string |
| Anchors.TargetFollows | webapp/assets/ace/worker-json.js:2406-2453 | the row and column computed for each kind of delta have the followed offset |
| Anchors.DeltaEditsText | webapp/assets/ace/worker-json.js:1728-1734 | a fitting delta changes the joined text by exactly the span and the text of its edit |
| Worker.CharToDocumentPosition | webapp/assets/ace/worker-json.js:1471-1498 | inverts the offset of every valid position, has the given offset inside the text, and is the last position past it |
| Worker.Mirror.OnChange | webapp/assets/ace/worker-json.js:1516-1519 | one change message applies its delta to the replica |
| Worker.Perform | webapp/assets/ace/worker-json.js:1563-1908 | each public method that changes a document has its effect, and its deltas replay to the same lines exactly when a replica can follow it; in bounds, they describe edits |
| Worker.Run | webapp/assets/ace/worker-json.js:1563-1908 | any run of edits that can be followed, undos and replays among them, emits a log that replays to the final lines, and describes edits when the run stays in bounds |
| Worker.EditOnce | webapp/assets/ace/worker-json.js:1509-1520 | after one edit of any kind, a replica that was sent its deltas has equal lines exactly when the edit can be followed |
| Worker.EditAndMirror | webapp/assets/ace/worker-json.js:1509-1520 | a replica that starts with equal lines and is sent the deltas of any run of edits that can be followed ends with equal lines |
| Worker.EditUndoEdit | webapp/assets/ace/worker-json.js:1893-1908 | edits, an undo of all of them, and other edits: the replica follows through, and the document is as if the first edits had not been |
| Worker.EditAndUndoOnce | webapp/assets/ace/worker-json.js:1893-1908 | one edit and its undo: for edits of single lines and of whole lines, the lines are restored exactly under the condition for its kind; for the edits made up of these, when they are in bounds |
| Worker.EditAndUndo | webapp/assets/ace/worker-json.js:1893-1908 | reverting the log of any run of edits that can be undone where they are made restores the original lines |
| Worker.RunInBoundsIsUndone | webapp/assets/ace/worker-json.js:1893-1908 | runs in bounds, on lines without line breaks, can be undone |
| Worker.UndoIsInBounds | webapp/assets/ace/worker-json.js:1893-1908 | undoing what was emitted is itself an edit in bounds, so runs with undos in them can be undone and tracked |
| Worker.EditAndTrack | webapp/assets/ace/worker-json.js:2393-2456 | over any run of in-bounds edits the anchor stays valid and its offset is that of the marker |
| Worker.FreeEffect | webapp/assets/ace/worker-json.js:1598-1600 | no edit puts a line break inside a line, unless lines or deltas that hold one are handed to it |
| JsonText.ParseValue | webapp/assets/ace/worker-json.js:2887-2905 | a value that is read ends strictly after where it began and inside the text |
| JsonText.Parse | webapp/assets/ace/worker-json.js:2910-2921 | a text that is accepted is consumed to its end |
| JsonLetters.EscapesRead | webapp/assets/ace/worker-json.js:2665-2674 | anywhere in a string, the letters " \ / b f n r t after a backslash are read as the units 34, 92, 47, 8, 12, 10, 13 and 9, and no other letter but u is accepted |
| JsonLetters.EscapeReads | webapp/assets/ace/worker-json.js:2774-2778 | a text of one such string is read as this unit, or refused as a bad string |
| JsonLetters.OthersRead | webapp/assets/ace/worker-json.js:2754-2757 | the quotation mark ends a string, and every other unit but the backslash stands for itself |
| JsonLetters.HexReads | webapp/assets/ace/worker-json.js:2759-2773 | the four hexadecimal digits of every n below 0x10000, each in either case, are read as n |
| JsonLetters.HexEscapeReads | webapp/assets/ace/worker-json.js:2759-2773 | the same for a whole text |
| JsonLetters.NoDigitEnds | webapp/assets/ace/worker-json.js:2762-2767 | any other unit ends the number early and is consumed |
| JsonLetters.WhiteReads | webapp/assets/ace/worker-json.js:2787-2794 | units up to 32 may stand around a value, and no others |
| JsonLetters.NothingFollows | webapp/assets/ace/worker-json.js:2910-2921 | what comes after a value is refused where it stands |
| JsonLetters.WordsRead | webapp/assets/ace/worker-json.js:2796-2822 | the letters of true, false and null |
| JsonLetters.DigitReadsAsNumber | webapp/assets/ace/worker-json.js:2714-2717 | each of the ten digits is a number |
| JsonLetters.NumeralReadsIff | webapp/assets/ace/worker-json.js:2705-2744 | a minus or not, digits, a point and digits or not, an exponent or not: it is read whole exactly when a digit stands on either side of the point and one in the exponent, and is otherwise refused as a bad number |
| JsonLetters.ArraysRead | webapp/assets/ace/worker-json.js:2826-2851 | the brackets and the comma of arrays |
| JsonLetters.ObjectsRead | webapp/assets/ace/worker-json.js:2853-2885 | the braces and the colon of objects |
| JsonLetters.MembersRead | webapp/assets/ace/worker-json.js:2866-2884 | a second member is kept under any other key, and refused under the same one |
| JsonLetters.ProtoRead | webapp/assets/ace/worker-json.js:2871-2874 | the name `__proto__` in an object: null, objects and arrays become the prototype, other values are lost |
| JsonPrint.ParseInvertsPrint | webapp/assets/ace/worker-json.js:2887-2921 | for every printed value, any white space, escapes and number forms, parsing the whole text returns the value, or refuses with the first repeated key |
| JsonPrint.FineIffNoRepeats | webapp/assets/ace/worker-json.js:2871-2874 | a text has a value exactly when no object in it repeats a key among its own properties, where `__proto__` counts once an earlier value has cut the object off |
| JsonPrint.DetachingMeans | webapp/assets/ace/worker-json.js:2874 | the values that cut an object off are null and the objects that were cut off themselves |
| JsonPrint.AcceptedIffNoRepeats | webapp/assets/ace/worker-json.js:2866-2884 | a printed text is accepted exactly when no object repeats such a key, and is otherwise refused for a duplicate key |
| JsonPrint.RepeatedProtoIsAccepted | webapp/assets/ace/worker-json.js:2871-2874 | an object with `__proto__` twice is accepted and has no members, unless the first value cuts it off |
| JsonPrint.DetachedProtoIsOwn | webapp/assets/ace/worker-json.js:2871-2874 | after a value that cuts the object off, a second `__proto__` is an own member, and a third is refused as a duplicate key |
| JsonPrint.ProtoWitnesses | webapp/assets/ace/worker-json.js:2871-2874 | true twice is accepted; null, then true twice, is refused |
| JsonPrint.SpelledReads | webapp/assets/ace/worker-json.js:2746-2785 | every sequence of code units has a spelling that is read as it |
| JsonPrint.EveryValueIsWritten | webapp/assets/ace/worker-json.js:2887-2921 | every value without a `__proto__` of its own has a text that is parsed to it |
| JsonPrint.IntegerReads | webapp/assets/ace/worker-json.js:2705-2744 | every integer has a numeral that is parsed to a number with that value |
| JsonParsers.Parser.White | webapp/assets/ace/worker-json.js:2787-2794 | skips to the first character that is not white space |
| JsonParsers.Parser.Number | webapp/assets/ace/worker-json.js:2705-2744 | reads the number at the position and fails exactly where its characters do not convert |
| JsonParsers.Parser.HexDigits | webapp/assets/ace/worker-json.js:2761-2768 | reads up to four hexadecimal digits and stops on the first other character |
| JsonParsers.Parser.String | webapp/assets/ace/worker-json.js:2746-2785 | reads the string at the position with all its escapes, or fails where the outcome says |
| JsonParsers.Parser.Word | webapp/assets/ace/worker-json.js:2796-2822 | reads true, false or null character by character, or fails on the first other one |
| JsonParsers.Parser.Array | webapp/assets/ace/worker-json.js:2826-2851 | reads the array at the position, or fails where the outcome says |
| JsonParsers.Parser.Items | webapp/assets/ace/worker-json.js:2838-2849 | the loop over items computes the outcome of reading them one by one |
| JsonParsers.Parser.Object | webapp/assets/ace/worker-json.js:2853-2885 | reads the object at the position, or fails where the outcome says; assigning `__proto__` changes the prototype or makes a member, as the object then is |
| JsonParsers.Parser.Members | webapp/assets/ace/worker-json.js:2866-2883 | the loop over members computes the outcome of reading them one by one |
| JsonParsers.Parser.Value | webapp/assets/ace/worker-json.js:2887-2905 | reads the value at the position, or fails with the outcome's error and position |
| JsonParsers.Parser.Parse | webapp/assets/ace/worker-json.js:2910-2921 | the shared-state parser returns what the outcome function of the whole text says, whatever it read before |
| JsonParsers.ConvertsByItself | webapp/assets/ace/worker-json.js:2737-2740 | whether the collected characters convert is whether the text at that position starts with a number |
| RdfaStore.BlankIsInjective | webapp/scripts/rdfaparser.js:283-286 | different counts name different blank nodes |
| RdfaSteps.VisitElement | webapp/scripts/rdfaparser.js:487-891 | after an element its child context refers to the context's list mapping, and list mappings only grow |
| RdfaMeaning.TypesAreSaid | webapp/scripts/rdfaparser.js:577-687 | every type of an element that resolves is a triple of the graph: about what the about attribute names, if it names something, about the subject or the object of the element in any case, and about every blank node that is named for the element |
| RdfaMeaning.SkippedIsTransparent | webapp/scripts/rdfaparser.js:665-680 | a skipped element adds no triples but that of its vocabulary, if it has one, and its children get the same subject, waiting triples and list mapping |
| RdfaMeaning.RelationsWithObject | webapp/scripts/rdfaparser.js:700-734 | with an object, rel adds one triple for each resolved property from subject to object, then rev one for each back, and nothing else |
| RdfaMeaning.ItemIsAppended | webapp/scripts/rdfaparser.js:703-713 | an inlist value goes to the end of the list of its property, created only if absent, and no other list changes |
| RdfaMeaning.ElementCompletes | webapp/scripts/rdfaparser.js:775-790 | an element with a subject completes every triple and list item its context waits for, and what it completes is there when it is done |
| RdfaMeaning.HangingRelations | webapp/scripts/rdfaparser.js:735-790 | a rel or rev without an object links the parent's subject with the subject of every element visited in the child context, each in its direction |
| RdfaVisit.NearestScope | webapp/scripts/rdfaparser.js:500-575 | an element reads its attributes with its own vocabulary, prefixes and language, or else those of its context, an empty vocabulary being the default one, and hands them on |
| RdfaVisit.ScopeResolves | webapp/scripts/rdfaparser.js:577-687 | which resolution each attribute goes through, and with what |
| RdfaVisit.EstablishNames | webapp/scripts/rdfaparser.js:577-687 | subject, object and typed node are each the first that is there in an order of names: about, then for elements without relation or plain property resource, href and src, then the document, a new blank node, or what the parent is about; an idle element is passed over |
| RdfaVisit.NewNamesAreCounted | webapp/scripts/rdfaparser.js:283-286 | at most one blank node is named for an element, only to be typed, and it is counted |
| RdfaVisit.VisitAdds | webapp/scripts/rdfaparser.js:487-860 | the triples of a visit, none but these and in this order: vocabulary, relations, completed triples, types, properties |
| RdfaVisit.VisitFiles | webapp/scripts/rdfaparser.js:700-860 | the list items of a visit, none but these: of every property of the element's list mapping, the items it had, those of relations, those that were waited for and those of properties, in order |
| RdfaVisit.TextIsSaid | webapp/scripts/rdfaparser.js:833-841 | an element whose attributes give no value says its properties, in triples or list items, with its text as a plain literal in the language in scope |
| RdfaVisit.TypedNodeIsSaid | webapp/scripts/rdfaparser.js:833-836 | if it has typeof and no about, with the node it types |
| RdfaVisit.ContentIsSaid | webapp/scripts/rdfaparser.js:817-819 | content is a plain literal |
| RdfaVisit.LiteralIsSaid | webapp/scripts/rdfaparser.js:809-816 | with a datatype, content or else the text is a literal of it, and a plain one if the datatype is empty |
| RdfaVisit.MarkupIsSaid | webapp/scripts/rdfaparser.js:809-816 | an XML literal is the repaired content or else the markup, and has no language |
| RdfaVisit.NamedValueIsSaid | webapp/scripts/rdfaparser.js:820-832 | without rel and rev, the value is what resource, or else href, or else src names |
| RdfaVisit.SaidOfEachToken | webapp/scripts/rdfaparser.js:842-859 | outside of lists, each token that resolves makes one triple about the subject, and these are the last ones |
| RdfaVisit.VisitHandsOn | webapp/scripts/rdfaparser.js:862-891 | children are about the object, or the blank node that stands for it, or else the subject, or else what the context is about; they complete the relations left open and no others; an idle element hands on what it was given |
| RdfaVisit.VisitRecords | webapp/scripts/rdfaparser.js:690-698 | the subject set on the element, the blank nodes named, and the list mapping to be printed, for the object or else for the subject |
| RdfaVisit.VisitAwaitsItems | webapp/scripts/rdfaparser.js:742-757 | a relation into a list without an object leaves the list of each property, in the element's mapping, waiting for its next item |
| RdfaVisit.ChildSpeaksOfObject | webapp/scripts/rdfaparser.js:862-891 | an element with properties alone, below any element: the exact triples of its visit, about what that element hands on, or about its own document where that was the document of its parent |
| RdfaVisit.ChildOfHangingRelation | webapp/scripts/rdfaparser.js:735-790 | below rel or rev without an object: the triples that relate the subject to a new blank node, and then the properties of this node |
| RdfaVisit.ObjectIsDescribed | webapp/scripts/rdfaparser.js:487-891 | in a traversal of two elements: rel and rev relate the subject to the resource, and the element inside describes the resource |
| RdfaVisit.TraverseKeepsSeparate | webapp/scripts/rdfaparser.js:460-902 | over a traversal, the properties of every list mapping keep different lists |
| RdfaLists.VisitIsQuiet | webapp/scripts/rdfaparser.js:487-895 | visiting an element writes to no printed mapping or list, gives the element one subject, and defers only a mapping that is new or the root's |
| RdfaLists.SkipIsNeverTaken | webapp/scripts/rdfaparser.js:464-467 | the deferred mapping is never the parent context's, so the skip branch is dead and every deferred mapping is printed |
| RdfaLists.PrintIsSound | webapp/scripts/rdfaparser.js:469-484 | printing a mapping keeps the invariant and marks exactly that mapping printed |
| RdfaLists.TraverseIsSound | webapp/scripts/rdfaparser.js:460-902 | over a subtree the invariant holds, printed mappings stay as printed, only new mappings are printed, and elements are visited once each in document order |
| RdfaReadBack.NodesAreDistinct | webapp/scripts/rdfaparser.js:475-478 | the nodes of all items of all lists of a run are pairwise distinct |
| RdfaReadBack.ListReadsBack | webapp/scripts/rdfaparser.js:479-482 | from any node of a list, rdf:first and rdf:rest are unique and lead through the remaining items to rdf:nil |
| RdfaReadBack.EveryListReadsBack | webapp/scripts/rdfaparser.js:462-486 | over a whole run: document order, and for every property of every printed mapping the generated triples read back as the items its list has at the end of the run, through new and distinct nodes |
| RdfaReadBack.ListReadsBackIff | webapp/scripts/rdfaparser.js:479-482 | a list whose cells are in a graph reads back from it exactly when nothing but its cells uses rdf:first or rdf:rest on its nodes |
| RdfaReadBack.EveryListReadsBackIff | webapp/scripts/rdfaparser.js:462-486 | over a whole run, all printed lists read back from all triples of the run exactly when nothing but their cells uses rdf:first or rdf:rest on their nodes |
| RdfaReadBack.EveryListReadsBackInTheGraph | webapp/scripts/rdfaparser.js:462-486 | when no token of the document, in the scope of its element, resolves to rdf:first or rdf:rest, all printed lists read back from all triples of the run |
| RdfaLabels.UnlabelledListsReadBack | webapp/scripts/rdfaparser.js:283-286 | when nothing the document refers to resolves to a label that the parser generates in this run, they do so whatever properties the document uses |
| RdfaLabels.TraverseIsClear | webapp/scripts/rdfaparser.js:460-902 | the invariant: every subject is a name that is no list node, or a list node in a cell of its own list, and what was no list node never becomes one |
| RdfaLabels.ScopeReadsBackIff | webapp/scripts/rdfaparser.js:462-486 | in any one scope, every document has all its lists read back exactly when no token means rdf:first or rdf:rest there, or nothing means a generated label |
| RdfaLabels.ClashBreaksList | webapp/scripts/rdfaparser.js:480-481 | for any rules under which both are meant in one scope, the document whose list does not read back |
| RdfaLabels.ClashingLabelBreaksList | webapp/scripts/rdfaparser.js:480-481 | one such document: a list about `_:1`, and rdf:rest said once more about it |
| RdfaProcess.RunElement | webapp/scripts/rdfaparser.js:892-901 | replacing an element on the queue by its children and its list mapping computes the same as traversing it |
| RdfaProcess.WorkBelow | webapp/scripts/rdfaparser.js:460-461 | what an element leaves on the queue is less work than the element |
| RdfaProcess.RDFaParser.Process | webapp/scripts/rdfaparser.js:450-904 | the queue loop ends and leaves the triples, counter, subjects and lists of the recursive traversal |
| RdfaProcess.RDFaParser.PushBelow | webapp/scripts/rdfaparser.js:892-901 | unshifting the mapping and then the children backwards leaves them in document order with the mapping after them |
| RdfaProcess.RDFaParser.Visit | webapp/scripts/rdfaparser.js:487-895 | the assignments and loops for one element compute its step |
| RdfaProcess.RDFaParser.CompleteIncomplete | webapp/scripts/rdfaparser.js:775-790 | each waiting triple or list item is completed with the subject, in order |
| RdfaProcess.RDFaParser.GenerateLists | webapp/scripts/rdfaparser.js:469-484 | prints a list mapping: nodes named in order, cells linked, properties pointed at the first |
| RdfaProcess.RDFaParser.GenerateList | webapp/scripts/rdfaparser.js:470-483 | one list: an empty one is rdf:nil and names no node |
| UriPaths.ReducedIsNormal | webapp/scripts/rdfaparser.js:126-135 | no "." is left, and no ".." past the first segment |
| UriPaths.ReduceIsIdempotent | webapp/scripts/rdfaparser.js:126-135 | normalising the segments a second time changes nothing |
| UriPaths.AgreesWithRfcIff | webapp/scripts/rdfaparser.js:126-135 | the segments are those of section 5.2.4 of RFC 3986 exactly when ".." climbs above the root an even number of times; otherwise one ".." is in front |
| UriPaths.ClimbingExample | webapp/scripts/rdfaparser.js:127-130 | a path where one ".." above the root stays and one where two cancel |
| UriPaths.NormalPathKeptIff | webapp/scripts/rdfaparser.js:122-136 | a path with no dots to remove is kept exactly when it neither starts nor ends with two slashes nor ends in "/."; otherwise it changes |
| UriPaths.SpelledIff | webapp/scripts/rdfaparser.js:264-279 | splitting a path into segments and joining them gives the path back exactly when it has no double slash at either end |
| UriPaths.DotsLeftIff | webapp/scripts/rdfaparser.js:108-121 | after a final "/." the segments left are the normal form of the path exactly if they were normal already |
| UriPaths.DotsRemain | webapp/scripts/rdfaparser.js:108-121 | the path "/../../." becomes "/../../", where the normal form has no segments |
| UriRfc.RfcIsParts | webapp/scripts/rdfaparser.js:126-136 | the string algorithm of section 5.2.4 of RFC 3986 is one pass over the parts between slashes |
| UriRfc.AgreesOnPathIff | webapp/scripts/rdfaparser.js:101-145 | on whole absolute paths: normalisation gives what the RFC gives exactly under a condition on the final segment, double slashes and the number of climbs above the root |
| UriRfc.TrailingSlashLost | webapp/scripts/rdfaparser.js:126-136 | "/a/b/.." becomes "/a", where the RFC has "/a/" |
| UriPaths.PartsSpellUri | webapp/scripts/rdfaparser.js:250-263 | taking a URI with an authority apart and spelling it again gives it back |
| UriPaths.PartsOfIff | webapp/scripts/rdfaparser.js:245-263 | the parts are the only ones that spell the text with no slash in the authority, no `?` or `#` in the path and no `#` in the query |
| UriPaths.SchemeIs | webapp/scripts/rdfaparser.js:86-94 | a scheme is a letter, then letters, digits, plus, comma, hyphen and point, up to the first colon |
| UriPaths.ParsedUri.constructor | webapp/scripts/rdfaparser.js:86-99 | the parsed fields spell the URI, and it is generic exactly when "//" follows the scheme |
| UriPaths.ParsedUri.ParseGeneric | webapp/scripts/rdfaparser.js:245-281 | authority, path, query, fragment and segments are those of the text |
| UriPaths.ParsedUri.RemoveDotSegments | webapp/scripts/rdfaparser.js:126-135 | the splicing loop, whose index moves backwards, ends and leaves the one-pass stack of the segments |
| UriPaths.ParsedUri.Normalize | webapp/scripts/rdfaparser.js:101-145 | only the path and the segments change, each to its normal form, and the text with them |
| RuleScanner.BestIsLeftmost | webapp/assets/creole/creole.js:123-135 | no child matches further left than the chosen one, and no earlier child at the same place |
| RuleScanner.StartIsBest | webapp/assets/creole/creole.js:133 | stopping at a match at the start of the text loses nothing |
| RuleScanner.ShiftedKeeps | webapp/assets/creole/creole.js:149-158 | the shifted cache never leads outside the tail, and agrees with stable patterns on it |
| RuleScanner.Rule.Leftmost | webapp/assets/creole/creole.js:121-135 | with a cache that agrees with the patterns, the choice is that of matching every child anew |
| RuleScanner.ScanCutsUp | webapp/assets/creole/creole.js:121-147 | the scan cuts its text up: a piece for a child is its whole match in what is left, the leftmost one and the earliest child's on ties; before it, and when no child matches, all is plain |
| RuleScanner.CutsUpOnlySo | webapp/assets/creole/creole.js:121-147 | and no other pieces are such |
| RuleScanner.CachedPiecesWereFound | webapp/assets/creole/creole.js:121-158 | for any patterns, a piece for a child is a whole match that the child has found at this very place |
| RuleScanner.Rule.Apply | webapp/assets/creole/creole.js:112-162 | the loop ends, its pieces are those of the scan by the cache, make up the input and are matches found where they are, for all non-empty patterns; for stable patterns the text is cut up at leftmost whole matches |
| RuleScanner.LookIsBest | webapp/assets/creole/creole.js:121-135 | looking by a cache that agrees with the patterns finds the leftmost match and leaves the cache so |
| RuleScanner.AnchoredIsMissed | webapp/assets/creole/creole.js:121-158 | a pattern anchored to the start of the text is missed after a cut, as it was not found before |
| TagFolding.TagPopsItsOwn | webapp/assets/ace/mode-html.js:1861-1878 | a closing tag removes the unclosed void elements above its opening tag, and it |
| TagFolding.VoidPopsJunk | webapp/assets/ace/mode-html.js:1865-1870 | a void tag takes nothing but void tags off the stack |
| TagFolding.ScanPieces | webapp/assets/ace/mode-html.js:1896-1943 | well-nested tags, scanned either way, leave the stack as it was but for void tags, and do not end the scan |
| TagFolding.ForwardFindsClose | webapp/assets/ace/mode-html.js:1890-1915 | from the opening tag of an element that is not void the scan ends at its closing tag |
| TagFolding.BackwardFindsOpen | webapp/assets/ace/mode-html.js:1916-1944 | from its closing tag the scan backwards ends at its opening tag |
| TagFolding.BothEndsFoldTheSame | webapp/assets/ace/mode-html.js:1880-1946 | wherever the element stands, both of its tags fold the range from the column of the opening tag plus its name and two to the start of the closing one |
| TagFolding.SelfClosingFoldsItself | webapp/assets/ace/mode-html.js:1925-1931 | a tag that closes itself folds from its column plus its name and two to two before its end |
| TagFolding.FoldIsAnchored | webapp/assets/ace/mode-html.js:1890-1944 | of any other fold at a tag, that end of it in columns, unless the scan ends at a tag that closes itself, whose inside it folds |
| TagFolding.UnclosedFoldsElsewhere | webapp/assets/ace/mode-html.js:1880-1946 | from a void element left open the fold ends at the closing tag of the element around it, which folds another range |
| TagFolding.FoldMode.Pop | webapp/assets/ace/mode-html.js:1861-1878 | the loop leaves the stack that the popping rule says |
| TagFolding.FoldMode.GetFoldWidgetRange | webapp/assets/ace/mode-html.js:1880-1946 | the range is the fold at the first tag of the line, and none when there is no tag |
| XmlText.LiteralReadsIff | webapp/scripts/rdfxmlserializer.js:159-166 | a literal's character data, read as XML text, is the literal exactly when it has only XML characters and no carriage return; whatever it holds, it does not reach into the markup |
| XmlText.RawValueReads | webapp/scripts/rdfxmlserializer.js:122 | a value written into an attribute as it is, is read as XML has it, and is the same exactly when it has no ampersand, quotation mark, '<', control or line end |
| XmlText.EscapedValueReads | webapp/scripts/rdfxmlserializer.js:130-132 | a value with its ampersands escaped is read as the same exactly when it has none of the others |
| XmlText.MarkupReads | webapp/scripts/rdfxmlserializer.js:168-171 | markup pasted into an element ends where it was pasted exactly when it is well formed: tags, attributes, references, comments, sections and instructions |
| XmlText.InstructionIff | webapp/scripts/rdfxmlserializer.js:168-171 | a processing instruction can be in it exactly when its target is a name other than xml, in any case |
| XmlText.NoSuchInstruction | webapp/scripts/rdfxmlserializer.js:168-171 | `<??>` and `<?xml?>` cannot |
| RdfXmlReader.ObjectReadsBackIff | webapp/scripts/rdfxmlserializer.js:134-157 | the element of a triple reads back as its object exactly when what is written raw (datatype, language, blank label, markup) and what is escaped (URI, text) survives XML |
| RdfXmlReader.NodeReads | webapp/scripts/rdfxmlserializer.js:126-132 | a subject or object node reads back from its attribute exactly when its blank label is a name, or its IRI survives with only ampersands escaped |
| RdfXmlReader.NameExpands | webapp/scripts/rdfxmlserializer.js:99-105 | a prefixed name is read as its property when the local part is a name, and as something shorter or nothing otherwise |
| RdfXmlReader.StatementsReadIff | webapp/scripts/rdfxmlserializer.js:173-180 | a description reads back as its statements, in order, exactly when all of them are clean; rdf:li, which RDF/XML renumbers, and its reserved names are not clean |
| RdfXmlReader.HeaderReadsIff | webapp/scripts/rdfxmlserializer.js:122 | the header reads back as its bindings exactly when every prefix and namespace survives |
| RdfXmlReader.DocumentReadsBackIff | webapp/scripts/rdfxmlserializer.js:182-214 | the document reads back, with the bindings of its header and every subject's statements in order, exactly when the header is clean and every triple is |
| RdfXmlReader.ReadsBackIff | webapp/scripts/rdfxmlserializer.js:182-214 | the same as a condition on the prefix rdf and on each added triple alone: prefix and namespace, subject, local name and object |
| RdfXmlReader.AllocatedBindsIff | webapp/scripts/rdfxmlserializer.js:115-121 | an allocated prefix can be declared for a namespace exactly when the namespace survives unescaped and is not one of XML's own |
| RdfXmlReader.QueryBreaksDocument | webapp/scripts/rdfxmlserializer.js:122 | the property `http://e/?a=1&b=2#p` has the namespace `http://e/?a=1&b=2#`, and a document that declares it first cannot be read |
| RdfXml.SplitNameIff | webapp/scripts/rdfxmlserializer.js:99-105 | a property splits into namespace and local name exactly when the one has at least two characters, ends in '/' or '#' and is on one line, and the other is not empty and has neither |
| RdfXml.SameTermSameSubject | webapp/scripts/rdfxmlserializer.js:126-132 | equal subject attributes come from equal subjects, so grouping by the attribute is grouping by subject |
| RdfXml.NextIsFewer | webapp/scripts/rdfxmlserializer.js:116-118 | each occupied number leaves fewer occupied ones ahead, so the search for a free prefix ends |
| RdfXml.TermsAreDistinct | webapp/scripts/rdfxmlserializer.js:199-207 | every subject is listed once, and every triple's subject is listed |
| RdfXml.AppendGroups | webapp/scripts/rdfxmlserializer.js:173-180 | appending a triple's lines to its subject's buffer is grouping the longer list of triples |
| RdfXml.DeclareOne | webapp/scripts/rdfxmlserializer.js:122 | declaring a bound prefix adds its declaration and changes no other |
| RdfXmlSerializer.Serializer.SetMappings | webapp/scripts/rdfxmlserializer.js:86-97 | without reset, bound prefixes keep their namespace and every used name keeps its declaration |
| RdfXmlSerializer.Serializer.BuildPrefix | webapp/scripts/rdfxmlserializer.js:107-124 | the prefix is bound to the namespace and declared with it, and an allocated one captures no bound prefix |
| RdfXmlSerializer.Serializer.AddTriple | webapp/scripts/rdfxmlserializer.js:173-180 | the triple's element is written with a prefix declared for the property's namespace; a property is accepted exactly when it is such a namespace and such a local name |
| RdfXmlSerializer.Serializer.ToString | webapp/scripts/rdfxmlserializer.js:182-214 | there is a document exactly when every property has such a name; it declares every prefix used and describes each subject once, in insertion order, with all its triples in order; read as RDF/XML it says what was added exactly when every triple is clean |
| WaitCounter.StepKeepsInv | webapp/scripts/wait.js:27-72 | every event and timer keeps the count equal to open operations plus scheduled decrements, and the class on while it is positive |
| WaitCounter.EveryRun | webapp/scripts/wait.js:21-72 | in every reachable state, for every interleaving: the count is right, the class is on while anything is open, and off when nothing is open and no timer is pending |
| WaitCounter.FromTheStart | webapp/scripts/wait.js:21-72 | the same from the state the page starts in |
| WaitCounter.RemovedWhenNothingIsOpen | webapp/scripts/wait.js:44-49 | the class is taken off only by the last final timer, with nothing open or scheduled |
| WaitCounter.LeftStaysWaiting | webapp/scripts/wait.js:63-66 | after the page is left the class stays on |
| WaitCounter.TimersSettle | webapp/scripts/wait.js:38-53 | timers run out in any order, and then the class is on exactly when something is open |
| WaitCounter.OpenCounts | webapp/scripts/wait.js:27-72 | which events open an operation and which end one |
| WaitCounter.OpenedCanEnd | webapp/scripts/wait.js:27-72 | a token, a request and asking to leave can be ended |
| WaitCounter.LoadedPageStops | webapp/scripts/wait.js:38-53 | a page that is ready and loaded, and does nothing else, stops waiting |
| WaitCounter.BeforeUnloadPasses | webapp/scripts/wait.js:55-61 | asking to leave a page with nothing open puts the class on, and it is off when the timers have run out |
| WaitCounter.UnloadStays | webapp/scripts/wait.js:63-66 | leaving it puts the class on for good |
| WaitCounter.Page.StartWaiting | webapp/scripts/wait.js:27-36 | a new token is open and the class is on |
| WaitCounter.Page.Over | webapp/scripts/wait.js:30-35 | closing a token ends its operation once; closing it again does nothing |
| WaitCounter.Page.OnDecrementTimer | webapp/scripts/wait.js:40-43 | the count goes down, and below one a final timer is set with a new number |
| WaitCounter.Page.OnFinalTimer | webapp/scripts/wait.js:44-49 | only the newest final timer takes the class off, and only if nothing is open |

## Left out

- Page wiring, dialogs, ajax and postMessage, editor widgets and charts: input, output and user interface.
- The Java server, its setup and its monitoring: process handling and file plumbing.
- Matching of DELETE WHERE against other blank nodes of a larger store: deletion is taken to remove exactly the triples of the removed map.
- The self-reference filter of the form reader (webapp/scripts/submit-update.js:129-132, 144-152): it uses DOM nodes as keys; here each emission carries whether it is filtered.
- XMLLiteral objects decoded by the browser's HTML parser: the object of such a triple stands for the decoded text.
- RdfText.SameTextIffSameStatement: language tags are compared as they are written, with other characters than letters, digits and hyphen removed, and blank labels in object position have no spaces, as they have no written form otherwise.
- FormSubmit.SubmitRDFForm: the stored map and the form's emissions are given; blank labels have no spaces; permission checks, events and the request that follows are not modelled.
- SparqlText.UpdateReadsIff: the reader takes the forms of SPARQL that the writer writes and refuses others (prefixed names, lists, long quotes); IRIs are not resolved against a base, and codepoint escapes (section 19.2 of SPARQL 1.1) are not replaced inside literals, where the writer doubles every backslash.
- Document.replace, which is remove followed by insert.
- Documents.Document.InsertInLine: requires a row of the document or the one after it, as one further on leaves holes in the array.
- Documents.Document.RemoveLines: its last row is not below -1.
- Anchors.Anchor.OnChange: requires a delta that describes an edit of the lines; for a delta that no edit of the document emits the original promises nothing.
- Worker.EditAndTrack: edits are within bounds; inserting whole lines after the last one and removing whole lines through it are not covered.
- Worker.EditAndUndoOnce: for insert, remove, setValue, applyDeltas and revertDeltas the condition is sufficient only.
- FlatText.RemoveIsReplace: the range is within the document; out-of-bounds ranges are clipped by the document and covered by the replica claim only.
- JsonParsers.Parser.Number: a number is kept as the text that is converted, and only the values of integers are stated. The reviver function is not modelled.
- JsonPrint.EveryValueIsWritten: values whose objects were given a prototype, or have `__proto__` as a member, are left out; how those come about is JsonPrint.DetachedProtoIsOwn.
- Resolving attribute values of RDFa to IRIs (prefixes, terms, relative URIs): these are arbitrary functions given to the parser, and failures that throw are not modelled. Attribute values come trimmed and split into tokens.
- RDFa lists whose mapping is replaced when an element has an object resource (webapp/scripts/rdfaparser.js:882-886): nothing says that every inlist value is printed, only that what is printed is complete and reads back.
- RdfaVisit.VisitFiles: speaks of the list mapping that the element files its items in; that it also completes what waits in the lists of its ancestors is RdfaMeaning.ElementCompletes.
- List mappings and lists of an RDFa run are kept in a store and referred to by index, each list with the mapping it was created in; the original refers to objects.
- RdfaLabels.ScopeReadsBackIff: documents whose elements all see one vocabulary, one base and the same prefixes; for other documents the two conditions are each sufficient.
- resolve and relativeTo of parsed URIs, and the fallback for a missing base.
- UriPaths.ParsedUri.Normalize: after a final "/." the path is only shortened, as in the original; where the result differs from the RFC is UriRfc.AgreesOnPathIff.
- Real regular expressions of Creole: patterns are abstract. Patterns anchored with `^` or `\b` are not stable; what the scan does with them is stated by the cache, and RuleScanner.AnchoredIsMissed shows one missed. Building child elements recursively is a piece handed to a child.
- Reading tags from the editor's tokens: the folding scan works on a sequence of tags with their positions.
- TagFolding.BothEndsFoldTheSame: elements with a void name are not covered; a fold that starts at an unclosed void element ends wherever the stack happens to empty, as in TagFolding.UnclosedFoldsElsewhere.
- The `reset` form of setMappings and the single setMapping, which may rebind a prefix that is already declared.
- RdfXmlReader.DocumentReadsBackIff: the reader takes the forms of RDF/XML that the serializer writes and refuses others (nested nodes, property attributes, rdf:ID, xml:base); IRIs are not resolved against a base.
- RdfXmlReader.ObjectReadsBackIff: the value of an XML literal is the text between the tags; it must be well formed, but canonical XML and whether the prefixes inside it are declared are not considered.
- Dictionaries whose keys look like array indices, which JavaScript iterates first, and keys such as `constructor` that every object inherits.
- Ajax events that complete without having been sent, and a second load event, which the browser does not fire.
