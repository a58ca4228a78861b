# Juice stock service — a Dafny model

This project models the service layer of a small juice inventory API. The
service keeps a table of juice records keyed by id and enforces three rules:

- a juice cannot be created under a name that is already stored;
- delete and increment first check that the id exists, and fail with
  "not found" otherwise;
- an increment is written only when `quantity + amount <= max`, and is
  otherwise refused with "stock exceeded" without any change.

It also models the transfer record (`JuiceDTO`) with the field constraints
it is validated against before the service is called, the juice type
enumeration, and the field-for-field mapper between the transfer record and
the stored entity.

Layout, one module per file:

- `wrappers.dfy` (`Wrappers`): `Option`, for nullable fields and lookups.
- `java_int.dfy` (`JavaInt`): the range of a Java `int` and its
  wrap-around addition.
- `ids.dfy` (`Ids`): the least element of a set of ids, used to list a
  table deterministically.
- `juice_type.dfy` (`JuiceTypes`): the six juice types, their labels
  (`"Graprefruit"` keeps its spelling) and their constant names.
- `juice_dto.dfy` (`JuiceDto`): the transfer record, with every field
  nullable, and the validity predicate `ValidJuice`.
- `juice_entity.dfy` (`JuiceEntity`): the stored record and the mapper.
- `juice_errors.dfy` (`JuiceErrors`): the failure kinds, one per exception
  (`AlreadyRegistered(name)`, `NameNotFound(name)` and `IdNotFound(id)`
  for the two constructors of the not-found exception,
  `StockExceeded(id, amount)`), and `Result`.
- `juice_store.dfy` (`JuiceStore`): the repository as a `map<int, Juice>`,
  its invariant (each record under its own id, every id below the next one
  to hand out, names unique), the pure reads `FindByName` and `ListAll`,
  the two checks, the stock rule `StockAfterIncrement`, and the lemmas that
  each kind of write keeps the invariant.
- `juice_service.dfy` (`Service`): class `JuiceService` with the table and
  the id sequence as fields; `CreateJuice`, `DeleteById` and `Increment`
  change them and state the new table in terms of the old one. The method
  `AppleJuiceScenario` is a verified client method that steps through the
  example from the tests (create "Apple juice" with max 50 and quantity 10,
  refuse a duplicate, add 10, refuse 45, delete, find nothing) using the
  contracts only.

Modelling choices:

- Java `int` fields (`max`, `quantity`, the increment amount) have the
  subset type `Int32`. The sum in `increment` is Java `int` arithmetic,
  so `StockAfterIncrement` uses `AddInt32`. When the exact sum fits in an
  `int`, the rule is exactly "accept iff `quantity + amount <= max`, and
  store that sum". When it does not, the code as written wraps:
  `OverflowingIncrementAccepted` shows that adding `2147483647` to a stock
  of 10 with max 50 is accepted and stores `-2147483639`. Whether an amount
  that large can reach the service depends on how the increment request
  body is validated, and that class is not part of this model.
- The amount has no sign check, so a negative amount is accepted and lowers
  the stock (`NegativeAmountAccepted`).
- `createJuice` is given a record that the transport layer has already
  validated (`@Valid` in the controller), so `CreateJuice` requires
  `ValidJuice(dto)`. The service then checks only the name.
- The id in the input record is dropped. The store assigns the next id of a
  sequence (`nextId`), which is larger than every stored id. `ToModel`
  therefore stands for the mapper's copy followed by the id that `save`
  assigns. This matches the source when the posted id is null.
- String lengths are counted as Java counts them, in UTF-16 code units
  (`Utf16Length`): a character above U+10000 counts twice.
- `FindByName` and `ListAll` are functions over the table; `findById`
  and the existence check are `FindById`, and the uniqueness check is
  `CheckNotRegistered`, which goes through the lookup by name as the source
  does.
- `ListAll` lists records in ascending id order, which is one of the orders
  the storage may yield. Its contract promises no order: one element per
  stored record, each the image of a stored record.

Invariants the code does not keep, though a reader of the data model might
expect them:

- `0 <= quantity <= max` is not checked at creation: a valid record may
  have a quantity of 100 and a max of 50, or negative values
  (`QuantityNotTiedToMax`). Only the record that an increment updates is
  guaranteed `quantity <= max`.
- `quantity <= 100` is checked on input only, and an increment may pass it
  (`IncrementMayPassInputBound`).
- The increment amount is not required to be positive or zero.

## Model

| member | source | states |
|---|---|---|
| JavaInt.AddInt32 | src/main/java/com/pratice/juicestock/service/JuiceService.java:64 | Java `int` addition: exact when the sum fits in 32 bits, and exactly 2^32 off when it overflows either way |
| JuiceTypes.Description | src/main/java/com/pratice/juicestock/enums/JuiceType.java:10-15 | the six labels, "Graprefruit" spelt as in the source; a label is non-empty and never reads back as a type, since labels differ from constant names |
| JuiceTypes.Name | src/main/java/com/pratice/juicestock/enums/JuiceType.java:10-15 | each constant's declared name, a non-empty upper-case identifier (letters and underscores) |
| JuiceTypes.ValueOf | src/main/java/com/pratice/juicestock/dto/JuiceDTO.java:39-41 | the type is stored by constant name: a string reads back as the constant with that name, and as nothing when no constant has it |
| JuiceTypes.NameRoundTrip | src/main/java/com/pratice/juicestock/enums/JuiceType.java:10-15 | each of the six constants read back from its own name is itself |
| JuiceTypes.DescriptionsDistinct | src/main/java/com/pratice/juicestock/enums/JuiceType.java:10-17 | no two constants share a label |
| JuiceDto.ValidJuice | src/main/java/com/pratice/juicestock/dto/JuiceDTO.java:21-41 | a valid record has every non-id field present, name and brand of 1 to 200 UTF-16 code units, max at most 500 and quantity at most 100 |
| JuiceDto.Utf16Length | src/main/java/com/pratice/juicestock/dto/JuiceDTO.java:23-29 | the Java length of a string: between its character count and twice that, equal to the count when every character is below U+10000 and to twice the count when every character is above |
| JuiceDto.SupplementaryCharactersCountTwice | src/main/java/com/pratice/juicestock/dto/JuiceDTO.java:23-25 | a name of 101 characters above U+10000 measures 202 units and is refused |
| JuiceDto.IdUnconstrained | src/main/java/com/pratice/juicestock/dto/JuiceDTO.java:21 | validity does not depend on the id, present or absent |
| JuiceDto.NoLowerBound | src/main/java/com/pratice/juicestock/dto/JuiceDTO.java:31-37 | lowering max or quantity to any Java int keeps a valid record valid |
| JuiceDto.UpperBoundsInclusive | src/main/java/com/pratice/juicestock/dto/JuiceDTO.java:31-37 | max 500 and quantity 100 are accepted, 501 and 101 refused |
| JuiceDto.NameLengthChecked | src/main/java/com/pratice/juicestock/dto/JuiceDTO.java:23-25 | an empty name or one longer than 200 characters is refused |
| JuiceDto.BuilderRecord | src/test/java/com/pratice/juicestock/controller/JuiceControllerTest.java:73-84 | the test record is valid, and the same record with a null brand is refused |
| JuiceDto.QuantityNotTiedToMax | src/main/java/com/pratice/juicestock/dto/JuiceDTO.java:31-37 | a record whose quantity exceeds its max, or whose max and quantity are negative, is valid |
| JuiceEntity.ToModel | src/main/java/com/pratice/juicestock/service/JuiceService.java:27-28 | the record `toModel` copies and `save` stores: it carries the id the store assigns, not the input's id, and the input's name, brand, max, quantity and type |
| JuiceEntity.ToDTO | src/main/java/com/pratice/juicestock/mapper/JuiceMapper.java:15 | the shown record is complete and carries the stored id and every stored field |
| JuiceEntity.ModelRoundTrip | src/main/java/com/pratice/juicestock/mapper/JuiceMapper.java:13-15 | showing a stored record and mapping it back under its id gives the same record |
| JuiceEntity.DtoRoundTrip | src/main/java/com/pratice/juicestock/mapper/JuiceMapper.java:13-15 | mapping a complete record to the store and showing it gives the input with the assigned id |
| JuiceStore.FindByName | src/main/java/com/pratice/juicestock/service/JuiceService.java:32-35 | succeeds exactly when some stored record has that name, and then returns that record; otherwise fails with NameNotFound(name) |
| JuiceStore.FindById | src/main/java/com/pratice/juicestock/service/JuiceService.java:57-60 | succeeds exactly when the id is stored, and then returns that record; otherwise fails with IdNotFound(id) |
| JuiceStore.CheckNotRegistered | src/main/java/com/pratice/juicestock/service/JuiceService.java:50-55 | fails exactly when a stored record has the name, and then with AlreadyRegistered(name) |
| JuiceStore.ListAll | src/main/java/com/pratice/juicestock/service/JuiceService.java:38-43 | one element per stored record: as many elements as records, every record's image present, every element the image of a record; empty for an empty table |
| JuiceStore.StockAfterIncrement | src/main/java/com/pratice/juicestock/service/JuiceService.java:62-70 | an accepted increment changes only the quantity and leaves it at most max; when the sum fits in an int it is accepted iff quantity + amount <= max and the new quantity is that sum |
| JuiceStore.IncrementExamples | src/test/java/com/pratice/juicestock/service/JuiceServiceTest.java:139-179 | with 10 in stock and max 50, adding 10 gives 20 and adding 45 or 80 is refused |
| JuiceStore.NegativeAmountAccepted | src/main/java/com/pratice/juicestock/service/JuiceService.java:62-66 | a negative amount is accepted and lowers the stock by its size |
| JuiceStore.OverflowingIncrementAccepted | src/main/java/com/pratice/juicestock/service/JuiceService.java:64-66 | adding the largest int to 10 in stock with max 50 overflows, is accepted and stores -2147483639 |
| JuiceStore.IncrementMayPassInputBound | src/main/java/com/pratice/juicestock/service/JuiceService.java:64-67 | with 100 in stock and max 500, adding 50 is accepted and stores 150, above the input bound of 100 |
| JuiceStore.InsertKeepsInvariant | src/main/java/com/pratice/juicestock/service/JuiceService.java:25-30 | saving a record with a fresh name under the next id keeps ids and names unique, and the name is then found with that record |
| JuiceStore.UpdateKeepsInvariant | src/main/java/com/pratice/juicestock/service/JuiceService.java:66-67 | replacing a record by one with the same id and name keeps the invariant |
| JuiceStore.RemoveKeepsInvariant | src/main/java/com/pratice/juicestock/service/JuiceService.java:45-48 | removing a record keeps the invariant, and its name is no longer found |
| Service.JuiceService.CreateJuice | src/main/java/com/pratice/juicestock/service/JuiceService.java:25-30 | a taken name gives AlreadyRegistered(name) and no change; otherwise exactly one record is added under a fresh id, the input is returned with that id, and a following lookup by the name returns it |
| Service.JuiceService.DeleteById | src/main/java/com/pratice/juicestock/service/JuiceService.java:45-48 | an unknown id gives IdNotFound(id) and no change; otherwise exactly that key is removed, every other record stays, and its name is no longer found |
| Service.JuiceService.Increment | src/main/java/com/pratice/juicestock/service/JuiceService.java:62-71 | an unknown id gives IdNotFound(id) and no change; a refused increment gives StockExceeded(id, amount) and no change; an accepted one replaces only that record by the updated one and returns it |

## Left out

- The HTTP controller, its documentation interface and the status codes:
  routing with no logic of its own.
- The JPA repository's own behaviour: it is replaced by a map; `save` of a
  record that already has an id (a merge) is not modelled, and ids are
  unbounded integers rather than Java `long` values.
- The mapper is generated code that is not part of this model. It is taken
  to copy the fields unchanged, except that the input's id is dropped on
  create and the store assigns a fresh one. The source keeps a non-null
  posted id and `save` then merges, which is not modelled. So the model
  does not reproduce the service test that expects the created id to equal
  the input id (through a mocked `save`).
- The `Juice` entity class is not part of this model; it is taken to have
  the six fields of the transfer record, none of them null.
- In the source, `increment` changes the fetched entity object in place and
  then saves it; the model replaces the record in the table by an updated
  value, so the aliasing of the managed entity is not captured.
- The text of the exception messages: only the failure kind and its
  context (name, id, amount) are modelled.
- Concurrency: the read-check-write of `increment` and the
  check-then-insert of `createJuice` are modelled as atomic; two requests
  interleaving against the same store are not.
- The decrement operation, which exists only as commented-out tests.
- Validation of the increment request body: that class is not part of this
  model, so the amount is any Java `int`.
