# Content tree, portfolio reader, employee cursor and group cache

This project models the four small in-memory structures in `index.js`:

- **Content tree** (`ContentContainer`, `Message`, `Article`). A node owns an
  ordered list of child nodes. `addElement` appends a child. `removeElement`
  deletes the first occurrence of a child and does nothing when the child is
  absent. `display` prints the node's own line and then everything each child
  prints, in list order. A `Message` prints its content. An `Article` prints
  `Стаття: ` followed by its title.
- **Portfolio reader** (`Letter`, `Picture`, `Movie`, `Portfolio`).
  `readElements` walks the portfolio in order. It prints one line per letter,
  picture or movie, and nothing for an element of any other class.
- **Employee cursor** (`EmployeeGroup`, `EmployeeIterator`). The iterator
  shares the group's array and keeps a position in it. `hasNext` asks whether
  an employee is left. `next` returns it and moves on, or returns `null` at
  the end. `list` joins the names of the whole array with `, `, wherever the
  position is.
- **Group cache** (`Group.create`). One shared `Group` per name, built on the
  first request for that name.

Printing is modelled as returning the printed lines. The content tree's lines
are strings. The portfolio's lines are a `Line` datatype that keeps each
reported number as a number.

Modules:

- `Sequences`: array `indexOf` plus `splice`, and `join`.
- `Composite`: the content tree.
- `Visitor`: the portfolio reader.
- `Iterator`: the employee cursor.
- `Flyweight`: the group cache.
- `Wrappers`: `Option`, whose `None` stands for `null`.

Two facts about the portfolio reader:

- `readElements` prints no line for an element of any other class, and it
  raises no error for one (index.js:305-311).
- The third item kind is `Movie`, with a `duration` field.

## Model

| member | source | states |
|---|---|---|
| `Sequences.IndexOf` | index.js:19-20 | The index of the first equal element, or -1 exactly when the element is absent. |
| `Sequences.RemoveFirstAbsent` | index.js:18-23 | Removing an absent element leaves the list unchanged. |
| `Sequences.RemoveFirstIsSplice` | index.js:19-21 | Splicing out the element at `indexOf` deletes exactly its first occurrence, which is the independent reference `RemoveFirst`. |
| `Sequences.RemoveFirstPresent` | index.js:18-23 | Removing a present element drops the length by one, takes away one copy of it and keeps the rest in their order. |
| `Sequences.Join` | index.js:534 | Joining no parts gives the empty string. Otherwise the joined string starts with the first part. |
| `Sequences.OffsetStep` | index.js:534 | The next part starts one part and one separator after the previous part's start. |
| `Sequences.JoinEnd` | index.js:534 | The joined string ends exactly where the last part ends. |
| `Sequences.JoinPart` | index.js:534 | Part i of the joined string sits at its offset. |
| `Sequences.JoinGap` | index.js:534 | The separator fills the gap after every part but the last. |
| `Sequences.JoinAt` | index.js:534 | In the joined string, part i starts at its offset. A separator follows every part but the last, and the last part ends the string. |
| `Sequences.JoinAll` | index.js:534 | The joined string is empty for no parts. Otherwise every part sits at its offset, the separator fills every gap between neighbours, and nothing follows the last part. |
| `Composite.OwnLine` | index.js:37-54 | A `Message`'s own line is its content (line 37). An `Article`'s own line is `Стаття: ` followed by its title (line 54). |
| `Composite.DisplayLines` | index.js:36-41 | The first line of a node's output is its own line. |
| `Composite.DisplayLinesAll` | index.js:38-40 | The children print at least one line per child. |
| `Composite.DisplayLinesLength` | index.js:53-58 | `display` prints exactly one line per node of the subtree. |
| `Composite.DisplayLinesAllLength` | index.js:38-40 | The children print exactly one line per node of their subtrees. |
| `Composite.DisplayLinesAllAppend` | index.js:38-40 | Children print in list order: the output for a split list is the output for the front followed by the output for the back. |
| `Composite.ChildBlock` | index.js:53-58 | Pre-order: each child's complete output is one contiguous block. The block comes right after the parent's own line and the blocks of the earlier children. |
| `Composite.DisplayAfterAdd` | index.js:14-16 | Appending a child appends that child's whole output to the parent's. |
| `Composite.DisplayAfterRemove` | index.js:18-23 | Removing a present child removes exactly that child's block from what the children print. The other children's blocks stay in order. |
| `Composite.DisplayAfterRemoveAbsent` | index.js:18-23 | Removing an absent child leaves the output unchanged. |
| `Composite.PreOrderExample` | index.js:53-58 | An Article R with children A (holding C) and then B prints R's line, A, C, B. |
| `Composite.ContentNode.Message` | index.js:31-34 | A new `Message` has its content and no children. |
| `Composite.ContentNode.Article` | index.js:48-51 | A new `Article` has its title and no children. |
| `Composite.ContentNode.AddElement` | index.js:14-16 | The child list becomes the old list plus the element at the end. The node's output grows by the element's output. |
| `Composite.ContentNode.RemoveElement` | index.js:18-23 | The child list becomes the old one with the first occurrence removed, or stays the same when the element is absent. Length and multiset change accordingly. |
| `Composite.ContentNode.Display` | index.js:53-58 | The loop prints exactly the pre-order output of the node's current tree. |
| `Visitor.ReadLetter` | index.js:291-293 | A letter's line carries its title and the length of its text. |
| `Visitor.ReadPicture` | index.js:295-297 | A picture's line carries its title and its size in KB. |
| `Visitor.ReadMovie` | index.js:299-301 | A movie's line carries its title and its duration in minutes. |
| `Visitor.Read` | index.js:305-311 | Dispatch gives a line exactly for letters, pictures and movies. The line is of the element's own kind and names the element. |
| `Visitor.ReadAll` | index.js:303-313 | There is at most one line per element. When the first element is a letter, picture or movie, the first line is that element's. |
| `Visitor.ReadAllAppend` | index.js:304-312 | Elements are read in list order: the lines for a split list are the lines for the front followed by the lines for the back. |
| `Visitor.ReadAllLength` | index.js:303-313 | The number of lines is the number of elements minus the number of elements of unknown class. |
| `Visitor.ReadAllSnoc` | index.js:303-313 | Appending an element adds its line at the end. An element of unknown class adds nothing. |
| `Visitor.ReadAllKnown` | index.js:303-313 | With no unknown elements, there is one line per element, and line i is element i's. |
| `Visitor.Portfolio.constructor` | index.js:283-285 | A new portfolio is empty. |
| `Visitor.Portfolio.AddElement` | index.js:287-289 | The list becomes the old list plus the element at the end. |
| `Visitor.Portfolio.ReadElements` | index.js:303-313 | The loop prints exactly the reference lines of the list: one per known element, in order. |
| `Iterator.Names` | index.js:533 | The names of the employees, one per employee, in order. |
| `Iterator.EmployeeGroup.constructor` | index.js:498-500 | A new group has no employees. |
| `Iterator.EmployeeGroup.AddEmployee` | index.js:502-504 | The array becomes the old array plus the employee at the end. |
| `Iterator.EmployeeIterator.constructor` | index.js:516-519 | The iterator shares the group's array, starts at index 0, is valid and has every employee still to come. |
| `Iterator.EmployeeIterator.HasNext` | index.js:521-523 | True exactly when some employee is still to come. |
| `Iterator.EmployeeIterator.Next` | index.js:525-530 | When an employee is left, it returns the one at the index and advances the index by one. Otherwise it returns null and keeps the index. The index stays within the array, and the array itself, which is all `list` reads, is unchanged. |
| `Iterator.EmployeeIterator.List` | index.js:532-535 | The result is empty for no employees. Otherwise every employee's name sits, in order, at its offset. Exactly ", " lies between neighbouring names, and the last name ends the string. It reads only the array. |
| `Iterator.ListOfTwo` | index.js:532-535 | The listing of two employees is their two names with one ", " between them. |
| `Iterator.NextUntilNull` | index.js:525-530 | Calling `next` until null yields the remaining employees in order, then null, and leaves the cursor exhausted. |
| `Flyweight.Group.constructor` | index.js:103-105 | A new group carries the given name. |
| `Flyweight.Lookup` | index.js:108 | Reading the cache object gives the stored group if there is one. Otherwise it gives the inherited prototype property if the name is one, and otherwise undefined. |
| `Flyweight.GroupRegistry.constructor` | index.js:101 | The cache starts empty. |
| `Flyweight.GroupRegistry.Create` | index.js:107-112 | Afterwards the cache maps the name to the returned group, which has that name. The same group is returned if one was cached. Otherwise a fresh group is inserted, and no other entry changes. |
| `Flyweight.GroupRegistry.CreateAsWritten` | index.js:107-112 | As written: a group is built only when the lookup is undefined. For an inherited name it returns the prototype property and stores nothing. |
| `Flyweight.CreateTwice` | index.js:107-112 | Two requests for one name return the same group. |
| `Flyweight.CreateAsWrittenTwice` | index.js:107-112 | As written, two requests for a name that `Object.prototype` supplies both return the inherited property, never a group, and the cache stays as it was. |

## Findings

| source | as written | input that shows it | evidently intended | confidence | as-written member | corrected member |
|---|---|---|---|---|---|---|
| index.js:107-112 | The cache is a plain `{}`, and it is tested by reading the name as a property. Names that `Object.prototype` supplies (`toString`, `constructor`, `valueOf`, `__proto__`, …) therefore read as already cached. | `Group.create("toString")` returns the inherited `toString` function, not a `Group`, and stores nothing. | Every call returns a `Group` with the requested name, which the comments before the class also say. | high, not executed | `Flyweight.GroupRegistry.CreateAsWritten` | `Flyweight.GroupRegistry.Create` |

## Left out

- Console output: each printing operation returns its lines instead of printing them.
- The demonstration code at the top level of `index.js`, which only builds sample objects and prints them.
- `TeaMaker` and its subclasses: fixed sequences of print calls with no state and no decisions.
- `BankTransfer`, `TransferAdapter` and the discount plans: their fees and discounts are floating-point multiplications.
- `User`, `SMSMessenger` and `EmailMessenger`: pure message-printing delegation.
- `Product`: it only stores a group and prints its name.
- `Composite.ContentNode.RemoveElement`: it finds the element by value equality on child trees, not by object identity (`===`). In the source, passing a distinct node with the same text and children removes nothing, because `indexOf` does not find it. In the model, the first equal child is removed, so the printed output loses that child's block.
- `Composite.ContentNode.AddElement`: children are attached as tree values. Mutating a child after it has been attached, which the source can do through a shared reference, is not modelled.
- `Visitor.ReadLetter`: the text length is the number of characters in the model, not JavaScript's count of UTF-16 code units.
- `Visitor.Portfolio.ReadElements`: the text of each printed line, including decimal formatting of numbers, is kept as a `Line` value rather than a string.
- `Flyweight.GroupRegistry.Create`: the static `#groups` field is an explicit registry object that callers pass around. There is no single global cache.
