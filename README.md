# Stock Management System in Dafny

This project models the in-memory inventory of the Stock Management System and proves properties of that model. The system is a console program that keeps one ordered list of product records. A single user adds, lists, updates and deletes records through a numbered menu.

A product has an immutable `id` and `name`, a mutable `quantity` and a mutable `price`. The electronics variant also has an immutable `warranty`. The guarded setters refuse a negative value and keep the old one. Ids are kept unique: both add flows keep asking for an id until the user gives one that is not taken.

## Structure

| file | module | what it holds |
|---|---|---|
| `wrappers.dfy` | `Wrappers` | `Option`, the result of a lookup (`java.util.Optional`) |
| `text.dfy` | `Text` | decimal rendering of an `int`, and the `"%.2f"` rendering of a price held in cents |
| `lists.dfy` | `Lists` | joining lines, counting a line, removing one element (generic sequence facts) |
| `products.dfy` | `Products` | `Product` as a class; `Record`, the value a product's fields hold; the setters' effect on a record; what `display` prints |
| `inventory.dfy` | `Inventory` | the store as a value (`seq<Record>`): its invariant, first-match lookup, and the add, update, delete and listing flows as functions, with lemmas |
| `menu.dfy` | `Menu` | the `run` loop as a state machine over the store's value: decoding a choice, one pass, a whole session |
| `stock.dfy` | `StockManagement` | the `StockManagementSystem` class: the list of product objects, its lookups, the flows as methods and the menu loop |

Each flow of the class is a method. Its `ensures` ties the new `Contents()` to the matching function in `Inventory` or `Menu`, applied to `old(Contents())`. `Contents()` is the list of records that the product objects hold, in list order. The properties are proved about those functions.

Modelling choices:
- **Electronics.** `Electronics` extends `Product` in the source. Here `Product` has a constant `kind` that is `General` or `Electronics(warranty)`. The named constructor `Product.Electronics` builds the electronics variant. `Display` dispatches on `kind`, as the overriding `display` method does.
- **Price.** A price is a whole number of cents, an `int`. The source's `double` is only compared with 0, stored and printed with two decimals.
- **Integer width.** No stored value takes part in arithmetic in the source, so Java's 32-bit `int` width is never reached and is not modelled.
- **Input helpers.** `getIntInput`, `getDoubleInput`, `getStringInput` and `getUserChoice` are oracles. Their results are arguments of the flow methods:
  - the add flows require those values to be non-negative, because the constructor stores them unchecked;
  - in a menu session, `Menu.WellFormed` says the same about every pass.
  - The update flow needs no such requirement, because the setters refuse negatives themselves.
- **Unique-id loop.** The `while (true)` loop of the add flows runs over `attempts`, the ids the user types, in order. When every attempt is taken, the program is still waiting for an id. The store is then unchanged, and the session stops with status `WaitingForId`.
- **Lookup result.** `findProductById` returns the found product in the source. Here it returns that product's position in the list. `products.remove(product)` then removes the element at that position. The product objects are distinct because their ids are distinct, so this is the same element.
- **Listing.** Viewing all products returns the lines it would print. Each line is one `println`. The line `"\n--- Product List ---"` is modelled as an empty line followed by the header. The update flow likewise returns the display lines of the record it found, which it prints before its sub-menu.

## Model

| member | source | states |
|---|---|---|
| `Products.Product.constructor` | Main/Main.java:22-27 | a new general product holds exactly the given id, name, quantity and price |
| `Products.Product.Electronics` | Main/Main.java:95-98 | a new electronics product holds the base fields and the given warranty |
| `Products.Product.SetQuantity` | Main/Main.java:52-58 | quantity becomes q when q >= 0 and is kept otherwise; price and the constant fields are untouched |
| `Products.Product.SetPrice` | Main/Main.java:65-71 | price becomes p when p >= 0 and is kept otherwise; quantity and the constant fields are untouched |
| `Products.WithQuantity` | Main/Main.java:52-58 | the setter's effect on a record: sets a non-negative quantity, leaves the record unchanged for a negative one, never touches id, name, price or kind, and keeps quantity non-negative |
| `Products.WithPrice` | Main/Main.java:65-71 | the same for price |
| `Products.ProductLine` | Main/Main.java:77-79 | the base display line starts with "ID: " |
| `Products.WarrantyLine` | Main/Main.java:111 | the warranty line is "Warranty: " followed by the warranty itself |
| `Products.Display` | Main/Main.java:109-112 | a general record displays one line, the base line; an electronics record displays the base line and then its warranty line; no displayed line is the divider |
| `Text.NatToString` | Main/Main.java:78 | an int is written as a non-empty string of decimal digits with no leading zero |
| `Text.NatToStringRoundTrip` | Main/Main.java:78 | the digits read back as the number they render |
| `Text.IntToString` | Main/Main.java:78 | the rendering starts with '-' exactly when the number is negative; what follows the sign is decimal digits with no leading zero that read back as the number's magnitude |
| `Text.CentsToString` | Main/Main.java:78 | a price renders as dollar digits, a point and exactly two cent digits, which read back as the price; the dollar part has no leading zero |
| `Text.PriceToString` | Main/Main.java:78 | a minus sign comes first exactly for a negative price; what follows is the rendering of its magnitude in cents: dollar digits with no leading zero, a point and two cent digits, which read back as that magnitude |
| `Inventory.Find` | Main/Main.java:278-282 | returns the first position in list order whose id matches, and None exactly when no record has the id |
| `Inventory.IsTaken` | Main/Main.java:269-271 | an id is taken exactly when the lookup finds it |
| `Inventory.FindUnique` | Main/Main.java:278-282 | with unique ids, the lookup of a record's id finds that record |
| `Inventory.FirstFree` | Main/Main.java:292-299 | the add loop stops at the first attempted id that is not taken: every earlier attempt is taken |
| `Inventory.FirstFreeUnique` | Main/Main.java:316-323 | any position that meets the loop's exit condition is the first free one |
| `Inventory.AddFlow` | Main/Main.java:288-331 | both add flows on the store's value: append the record with the first free attempted id, or leave the store unchanged when no attempt is free; its properties are stated by `Inventory.AddFlowCorrect` |
| `Inventory.AddFlowCorrect` | Main/Main.java:288-306 | an add with a free id appends exactly one record, last; the earlier records are unchanged; the new id was not taken and is found at the new position; the invariant is kept; with no free id the store is unchanged |
| `Inventory.UpdateFlow` | Main/Main.java:354-392 | an empty store, an unknown id or an invalid sub-choice leaves the store unchanged with the matching outcome; otherwise only the found record changes, and only its quantity (sub-choice 1) or price (sub-choice 2), through the setter; the length is kept; the invariant is kept for any value |
| `Inventory.UpdatePreview` | Main/Main.java:362-367 | the update flow shows something exactly when the target id is taken, and then it is the found record's display |
| `Inventory.DeleteFlow` | Main/Main.java:398-415 | an empty store or an unknown id leaves the store unchanged with the matching outcome; otherwise exactly one record goes; afterwards, under unique ids, the id is absent; the invariant is kept |
| `Inventory.DeleteRemovesFound` | Main/Main.java:406-410 | the deleted record is the first match; records before it keep their positions, those after move up by one, and the multiset of records loses exactly that record |
| `Inventory.BlockList` | Main/Main.java:343-346 | the listing has one block per record, in list order: the record's display followed by the divider |
| `Inventory.Listing` | Main/Main.java:337-348 | viewing all products on the store's value: the no-products line for an empty store, otherwise the header and each record's block; its properties are stated by `Inventory.ListingShape`, `Inventory.BlocksAppend`, `Inventory.BlockInPlace` and `Inventory.OneDividerPerRecord` |
| `Inventory.ListingShape` | Main/Main.java:337-348 | a non-empty store lists as the header followed by the records' blocks |
| `Inventory.ListingSnoc` | Main/Main.java:343-346 | visiting one more record adds exactly its block at the end |
| `Inventory.BlocksAppend` | Main/Main.java:343-346 | listing two runs of records one after the other is listing each in turn (insertion order is kept) |
| `Inventory.BlockInPlace` | Main/Main.java:343-346 | each record's block stands between the blocks of the records before it and those after it |
| `Inventory.OneDividerPerRecord` | Main/Main.java:345 | the blocks of n records hold exactly n divider lines |
| `Menu.Decode` | Main/Main.java:145-167 | choices 1 to 5 pick the five flows, 6 exits, and every other integer is invalid |
| `Menu.WellFormed` | Main/Main.java:212-252 | the promise of the integer and decimal input helpers: every answer they supply is non-negative, namely the attempted ids, the quantity, the price, the target id of an update or delete and the new value of an update; the menu choice and the update sub-choice come from the choice reader and may be any integer |
| `Menu.Step` | Main/Main.java:141-168 | a pass exits exactly on choice 6; choice 3 shows the listing; choice 4 shows the current display of the record found for the target id; no other choice shows anything; choices 3, 6 and those outside 1..6 leave the store unchanged; an invalid choice leaves every part unchanged and the loop running; a pass left waiting for an id is an add that changed nothing |
| `Menu.StepPreservesValid` | Main/Main.java:141-168 | every pass whose answers are well-formed keeps unique ids and non-negative ids, quantities and prices |
| `Menu.RunFrom` | Main/Main.java:137-171 | the menu loop on the store's value: passes run in order until one exits, one stalls waiting for an id, or the session ends; its properties are stated by `Menu.RunFromUnfold`, `Menu.RunPreservesValid` and `Menu.RunStopsAtFirstExit` |
| `Menu.RunFromUnfold` | Main/Main.java:141-169 | running a session is running its first pass, and then the rest of the session unless that pass ended the loop |
| `Menu.RunPreservesValid` | Main/Main.java:137-171 | a whole session keeps the invariant when the input helpers return non-negative values |
| `Menu.RunStopsAtFirstExit` | Main/Main.java:141-169 | the loop reads passes up to the first choice 6 and no further: a run that exited read exactly up to that pass; a run still going read the whole session and met no 6 |
| `StockManagement.Snapshots` | Main/Main.java:119 | the store's value is, position by position, what each product object holds |
| `StockManagement.SnapshotsRemove` | Main/Main.java:410 | removing a product object removes its record from the store's value at the same position |
| `StockManagement.StockManagementSystem.constructor` | Main/Main.java:119 | a new system has an empty list |
| `StockManagement.StockManagementSystem.FindProductById` | Main/Main.java:278-282 | the result is the first position whose product has the id, and None exactly when no product has it |
| `StockManagement.StockManagementSystem.IsProductIdTaken` | Main/Main.java:269-271 | an id is taken exactly when the lookup finds it |
| `StockManagement.StockManagementSystem.ReadUniqueId` | Main/Main.java:292-299 | the loop returns the position of the first attempted id that is not taken, with every earlier attempt taken, or the number of attempts when all are taken |
| `StockManagement.StockManagementSystem.Append` | Main/Main.java:304 | appending puts the new product object last and leaves the objects already listed as they are |
| `StockManagement.StockManagementSystem.AddGeneralProduct` | Main/Main.java:288-306 | the list becomes what the add flow gives for a general record, and the invariant is kept |
| `StockManagement.StockManagementSystem.AddElectronicsProduct` | Main/Main.java:312-331 | the same for an electronics record that carries the warranty |
| `StockManagement.StockManagementSystem.ViewAllProducts` | Main/Main.java:337-348 | returns exactly the listing of the store, in insertion order, and changes nothing |
| `StockManagement.StockManagementSystem.UpdateProduct` | Main/Main.java:354-392 | the found product object is changed in place through its setter, and the store becomes what the update flow gives; it shows the found product's display from before the change; the invariant is kept |
| `StockManagement.StockManagementSystem.SetField` | Main/Main.java:375-388 | the update sub-menu: sub-choice 1 changes only the chosen product's quantity, 2 only its price, each as its setter does; any other sub-choice changes nothing; the invariant is kept |
| `StockManagement.StockManagementSystem.Untouched` | Main/Main.java:365-383 | changing the found product object leaves every other product's record as it was |
| `StockManagement.StockManagementSystem.DeleteProduct` | Main/Main.java:398-415 | the store becomes what the delete flow gives, and the invariant is kept |
| `StockManagement.StockManagementSystem.RunStep` | Main/Main.java:145-167 | one pass of the switch changes the store and returns output and status exactly as `Menu.Step` says |
| `StockManagement.StockManagementSystem.Run` | Main/Main.java:137-171 | the menu loop ends with the store, output, status and number of passes read that `Menu.RunFrom` gives, and keeps the invariant |

## Left out

- Console I/O is left out, because it is input and output, not store logic. This covers `Scanner`, `nextInt`, `nextDouble`, `nextLine`, prompts, messages, `System.err` and `sc.close()`. The input helpers appear only through the values they return.
- Input errors are left out, because they never reach the store. This covers the `InputMismatchException` retry loops and the re-prompt on a negative number in `getIntInput` and `getDoubleInput`. The model keeps their promise that every value returned is non-negative.
- End of input is not modelled: in the source it throws an exception that is not caught. A finite session here just stops, with status `Running` or `WaitingForId`.
- `displayMenu` is left out, because it only prints.
- `main` is left out, because it only creates a system and calls `run`.
- The getters are not modelled as members: the model reads the fields directly.
- Floating-point prices are left out. A price is an exact number of cents, so the rounding of `String.format("%.2f", ...)` on a `double` is not modelled. Non-finite doubles are also outside the cents model. `nextDouble` accepts "NaN" and "Infinity", and a NaN passes the `value < 0` test in `getDoubleInput` (Main/Main.java:242), so the source could store a price that is not `>= 0`. The rendering assumes a locale that writes a '.' as decimal separator, since `String.format` follows the default locale, and negative zero is outside the cents model; a typed "-0" passes the `value < 0` test and the source prints it as "-0.00".
- Blank input lines are not modelled. `nextInt` would skip them.
- `StockManagement.StockManagementSystem.FindProductById` returns the found product's position, not the product object as the source's `Optional<Product>` does.
- `Products.ProductLine` states only that the line starts with "ID: ". The rest of the line comes from its definition, which joins the same pieces as Main/Main.java:78.
