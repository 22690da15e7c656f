# Irish monuments site: store services and handlers in Dafny

This project models the server core of a small web application that records
Irish monuments. Signed-in users add, edit and delete monuments. Each monument
is filed under its province category ("Munster", "Leinster", "Connacht" or
"Ulster") and under free-form categories, and has hosted images. User accounts
carry a per-user record counter, a last-update stamp and a last-login time.

The MongoDB collections are modelled as in-memory tables in one
`Store.Database` class: categories, images, monuments and users, plus an id
counter that stands in for ObjectId allocation. `Valid()` says every stored id
was handed out by the counter and that no two documents in a table share an
id. Each Mongoose call the services make is a method of that class. The
method's contract ties the new table to a pure function in `Records` or
`Tables`: `find` is a filter, `findById` a lookup, `save` a write by id,
`updateOne({title})` a change to the first match, and a single-argument
`updateMany({$pull})` a change to every category.

The services and handlers are methods over the store. Where the source loops,
the method loops too, and each method is proved equal to a specification
function (`AddAdditionalSpec`, `EditAdditionalSpec`, `FileSpec`, `ReviseSpec`,
`Relinked`, `Reshape`, ...). The lemmas then state what the source promises
about those functions:
- every category a monument refers to lists it;
- the province category lists it;
- no category loses a member;
- deleting leaves no reference to the monument;
- counters never go negative;
- a sign-up can log in;
- a formatted date can be parsed back.

Modules, each following one source file:

| module | file |
|---|---|
| `Wrappers` | `Option`, `Result` and the two error kinds (`TypeError`, Boom's `Unauthorized`) |
| `Tables` | generic table operations and the id discipline |
| `Records` | the four schemas and the store calls on them |
| `Store` | the `Database` class |
| `CategoryFunctionality` | app/utils/categoryFunctionality.js |
| `ImageFunctionality` | app/utils/imageFunctionality.js, with the Cloudinary upload as a function parameter |
| `MonumentsController` | the addMonument, editMonument, deleteMonument and editMonumentView handlers of app/controllers/monuments.js |
| `SeedData` | updateSeededData of app/models/db.js |
| `DateFunctionality` | app/utils/dateFunctionality.js |
| `WeatherFunctionality` | manipulateApiResponse of app/utils/weatherFunctionality.js |
| `AccountsController` | signup, showSettings, updateSettings, deleteAccount and login of app/controllers/accounts.js |
| `UserModel` | the two schema helpers of app/models/user.js |

Behaviour that is modelled as the code is written, even where the comments or
tests suggest otherwise:
- `addMonumentProvinceCategory` returns `category._id`. When the province
  category exists already, `category` is the query's result array, so the
  returned id is `undefined`. `addMonument` pushes that `undefined` into the
  monument's categories. The model's category references are
  `Option<Id>` for this reason.
- `editMonument` sets `monument.user = monumentEdit._id`. The validated edit
  payload has no `_id`, so an edited monument loses its owner.
- `editMonumentImages(image)` with a file whose name is empty, called with the
  flag set as its unit test does, creates one placeholder record and returns
  its id and title. The unit test expects two empty lists. The code is
  modelled (`EditFlagCreatesPlaceholder`), and so is the flag-less call the
  handler makes (`EditNothingWithoutFileOrFlag`).
- `showSettings` reads `user.userType` before its `if (user)` test, and
  `updateSettings`, `addMonument`, `editMonument` and `deleteAccount`
  dereference the result of `findById`. A missing document therefore throws a
  TypeError in each of them, which is modelled as `Err(TypeError)`.
- `deleteAccount` deletes before it looks at the logged-in user. When that
  user is neither "User" nor "Admin", the handler returns nothing.
- `updateSeededData` adds a category only when its member list has the
  monument and is non-empty. The second test adds nothing, and
  `CategoriesOfMembers` proves it.

## Model

| member | source | states |
|---|---|---|
| Tables.Filter | app/utils/categoryFunctionality.js:34 | a query returns exactly the stored documents that match, never more than the collection holds |
| Tables.FilterHead | app/utils/categoryFunctionality.js:44 | the first document a query returns is the first matching document of the collection |
| Tables.FindByKey | app/controllers/accounts.js:150 | `findById` finds a stored document with that id, and finds none exactly when no stored document has it |
| Tables.SaveByKey | app/controllers/accounts.js:160 | saving a loaded document replaces the stored document with its id and leaves every other one and the table's length alone; the table's ids are unchanged |
| Tables.DeleteByKey | app/controllers/monuments.js:365 | `deleteOne({_id})` keeps exactly the documents with another id, and the id is gone afterwards |
| Tables.FindAfterSave | app/controllers/accounts.js:150-160 | after saving a document whose id is stored, looking that id up finds what was saved |
| Records.Without | app/utils/categoryFunctionality.js:19 | `$pull` removes every occurrence of the id and keeps the multiplicity of every other member |
| Records.PullEverywhere | app/utils/categoryFunctionality.js:18-20 | the one-argument `updateMany` pulls the id from every category, keeping each category's id, title and other members |
| Records.PushById | app/utils/categoryFunctionality.js:44-45 | saving a loaded category after a push appends the monument to the category with that id only; ids and titles are unchanged |
| Records.PushFirstTitled | app/utils/categoryFunctionality.js:23-25 | `updateOne({title})` appends the monument to the first category with that title only, and changes nothing when there is none |
| Records.LinkByTitle | app/utils/imageFunctionality.js:191-193 | every image whose title is listed gets the monument, and every other image is unchanged; ids and titles are unchanged |
| Records.SetLinks | app/models/db.js:51 | `Monument.updateOne({_id})` replaces the image and category lists of the monument with that id only; the table's ids are unchanged |
| UserModel.FindByEmail | app/models/user.js:18-20 | the first user registered under the email, and none exactly when no user has that email |
| UserModel.ComparePassword | app/models/user.js:22-28 | the same user back exactly when the passwords are equal, otherwise Boom's unauthorized "Password mismatch" |
| Store.Database.InsertCategory | app/utils/categoryFunctionality.js:37-42 | a new category takes the next id and is appended, and the id discipline is kept |
| Store.Database.PushToCategory | app/utils/categoryFunctionality.js:44-45 | the table becomes `PushById` of the old one |
| Store.Database.PushToFirstTitled | app/utils/categoryFunctionality.js:24 | the table becomes `PushFirstTitled` of the old one |
| Store.Database.PullFromAll | app/utils/categoryFunctionality.js:19 | the table becomes `PullEverywhere` of the old one |
| Store.Database.NewImage | app/utils/imageFunctionality.js:92-99 | a new image document takes the next id, which is handed out even when the document is not saved; it is appended only when saved |
| Store.Database.LinkImages | app/utils/imageFunctionality.js:192 | the image table becomes `LinkByTitle` of the old one |
| Store.Database.DeleteImagesOf | app/utils/imageFunctionality.js:196 | the image table keeps exactly the images not belonging to the monument |
| Store.Database.InsertMonument | app/controllers/monuments.js:165-178 | a new monument takes the next id and is appended |
| Store.Database.SaveMonument | app/controllers/monuments.js:191 | the monument table becomes `SaveByKey` of the old one, and the id discipline is kept |
| Store.Database.UpdateMonumentLinks | app/models/db.js:51 | the monument table becomes `SetLinks` of the old one |
| Store.Database.DeleteMonument | app/controllers/monuments.js:365 | the monument table becomes `DeleteByKey` of the old one |
| Store.Database.InsertUser | app/controllers/accounts.js:70-79 | a new user takes the next id and is appended |
| Store.Database.SaveUser | app/controllers/accounts.js:160 | the user table becomes `SaveByKey` of the old one |
| Store.Database.DeleteUser | app/controllers/accounts.js:202 | the user table becomes `DeleteByKey` of the old one |
| CategoryFunctionality.PopulateIds | app/utils/categoryFunctionality.js:8 | `populate` yields stored monuments only, and their ids are the member ids that name a stored monument, in member order |
| CategoryFunctionality.View | app/utils/categoryFunctionality.js:6-10 | a populated category keeps its id and title, and its monuments are the stored members |
| CategoryFunctionality.FindProvinceCategories | app/utils/categoryFunctionality.js:6-10 | the result shows only province-titled stored categories, and every province-titled category |
| CategoryFunctionality.FindAllOtherCategories | app/utils/categoryFunctionality.js:12-16 | the result shows only non-province stored categories, and every one of them |
| CategoryFunctionality.CategoriesPartition | app/utils/categoryFunctionality.js:6-16 | the two queries split the table: lengths add up, the multisets add up, and each category is in exactly one part |
| CategoryFunctionality.PullPriorMonumentIds | app/utils/categoryFunctionality.js:18-20 | the id is pulled from every category |
| CategoryFunctionality.RemoveMonumentId | app/utils/categoryFunctionality.js:28-30 | the id is pulled from every category |
| CategoryFunctionality.EditMonumentProvince | app/utils/categoryFunctionality.js:23-25 | the first category with the province title gains the monument |
| CategoryFunctionality.PushToFoundIsPushFirst | app/utils/categoryFunctionality.js:44-45 | because ids are unique, saving the first found category equals pushing to the first category with that title |
| CategoryFunctionality.AddMonumentProvinceCategory | app/utils/categoryFunctionality.js:33-49 | the table, counter and returned reference are those of `ProvinceSpec`: a new province category under the next id, or a push to the existing one with `undefined` returned |
| CategoryFunctionality.ProvinceFiling | app/utils/categoryFunctionality.js:33-49 | no category is lost; a reference comes back exactly when no province category existed, and then it names a new category holding only the monument; otherwise the first existing one gains it |
| CategoryFunctionality.PushAllCount | app/utils/categoryFunctionality.js:81-85 | pushing once per collected id adds the monument to each category as many times as its id was collected |
| CategoryFunctionality.AllExistPushesOnce | app/utils/categoryFunctionality.js:80-85 | when every ticked title was found, each matching non-province category gains the monument exactly once and no other category changes |
| CategoryFunctionality.PushAllLinks | app/utils/categoryFunctionality.js:80-85 | the found branch keeps the table growing and collects only ids of ticked categories that now hold the monument |
| CategoryFunctionality.LookupOrCreateLinks | app/utils/categoryFunctionality.js:62-74 | the single-title step collects one id for a category with that title holding the monument; when a match was found it pushes the monument onto the first match's id only, keeps the counter and creates nothing, otherwise it creates `{title, [monument]}` under the next id and collects that id |
| CategoryFunctionality.PushFoundOnly | app/utils/categoryFunctionality.js:71-73 | with distinct ids, pushing onto a found category's id changes that category alone |
| CategoryFunctionality.AddTitleStepLinks | app/utils/categoryFunctionality.js:88-102 | one step of the per-title loop collects one id for a category with that title holding the monument; with exactly one category of that title it pushes the monument onto that category's id only and creates nothing, otherwise it creates `{title, [monument]}` under the next id and collects that id |
| CategoryFunctionality.AddTitlesLinks | app/utils/categoryFunctionality.js:87-103 | the per-title loop collects one id per title, each naming a ticked category that holds the monument |
| CategoryFunctionality.AddTitleStepLast | app/utils/categoryFunctionality.js:88-102 | a step keeps the ids collected before and appends one for its own title |
| CategoryFunctionality.AddTitlesInOrder | app/utils/categoryFunctionality.js:87-103 | the i-th collected id names a category titled with the i-th ticked title that holds the monument |
| CategoryFunctionality.AddTitlesCount | app/utils/categoryFunctionality.js:87-103 | the per-title loop collects exactly one id per ticked title and never moves the id counter back |
| CategoryFunctionality.AddTitlesReuse | app/utils/categoryFunctionality.js:88-93 | a title held by exactly one category is never created again: that category keeps its id and every occurrence of the title collects it |
| CategoryFunctionality.AddTitlesAbsent | app/utils/categoryFunctionality.js:87-103 | a title that is neither stored nor ticked gets no category |
| CategoryFunctionality.AddTitlesCreateOnce | app/utils/categoryFunctionality.js:94-101 | a ticked title that no category has is created exactly once, under a fresh id, and every later occurrence of it reuses that category |
| CategoryFunctionality.AddTitlesAmbiguous | app/utils/categoryFunctionality.js:94-101 | a title held by two or more categories gets a new category for every occurrence, each under a fresh id |
| CategoryFunctionality.AddAdditionalLinks | app/utils/categoryFunctionality.js:54-108 | no category is lost; nothing ticked changes nothing; one title pushes the monument onto the first non-province category with that title, and with distinct ids onto that category alone, or else creates `{title, [monument]}` under the next id, and collects that one id; several titles all found create nothing; several titles give one id per title; every id names a ticked category holding the monument |
| CategoryFunctionality.AddAdditionalWalk | app/utils/categoryFunctionality.js:86-103 | when some ticked title is missing, for each title: one match is reused and collected at every occurrence; an unticked absent title stays absent; a ticked absent title is created once, under an id not stored before, and collected at every occurrence; two or more matches get a new category per occurrence, none of them stored before |
| CategoryFunctionality.AddAdditionalWalkGains | app/utils/categoryFunctionality.js:86-103 | when some ticked title is missing, each category stored before gains only copies of the monument: as many as its title is ticked when it is its title's only category, none otherwise; a category with an unticked title is unchanged |
| CategoryFunctionality.AddTitlesGains | app/utils/categoryFunctionality.js:87-103 | over the whole per-title loop, each category stored before gains the monument once per occurrence of its title when it is that title's only category, and nothing else changes about it |
| CategoryFunctionality.TitleStepFrame | app/utils/categoryFunctionality.js:88-102 | one step of the per-title loop pushes the monument onto a category stored before exactly when the title is its own and it is that title's only category; otherwise the category is unchanged |
| CategoryFunctionality.PushFirstTitledGrows | app/utils/categoryFunctionality.js:24 | pushing by title loses nothing and leaves the first category with that title holding the monument |
| CategoryFunctionality.RetainStepLinks | app/utils/categoryFunctionality.js:118-131 | one step of the first edit loop loses nothing, and for a ticked existing title collects one id of a category with that title holding the monument |
| CategoryFunctionality.RetainExtends | app/utils/categoryFunctionality.js:118-132 | the first edit loop creates no category and collects only ids of ticked categories holding the monument |
| CategoryFunctionality.RetainGains | app/utils/categoryFunctionality.js:118-131 | the first edit loop pushes the monument onto the first category with a ticked title once for each snapshot category with that title, and changes no other category |
| CategoryFunctionality.CreateMissingPrefix | app/utils/categoryFunctionality.js:134-147 | the second edit loop leaves every category before it exactly as it was |
| CategoryFunctionality.EditAdditionalGains | app/utils/categoryFunctionality.js:113-147 | with a list, the first category with a ticked non-province title gains only copies of the monument, one per non-province category with that title and so at least one; every category with an unticked or province title, and every one that is not first with its title, is unchanged |
| CategoryFunctionality.RetainCovers | app/utils/categoryFunctionality.js:118-132 | after the first edit loop, every ticked non-province category of the snapshot is listed by a collected id |
| CategoryFunctionality.CreateStepLinks | app/utils/categoryFunctionality.js:135-146 | one step of the second edit loop changes nothing when exactly one category has that title, and otherwise creates `{title, [monument]}` under the next id and collects that id |
| CategoryFunctionality.CreateMissingLinks | app/utils/categoryFunctionality.js:134-147 | the second edit loop collects only ids of categories with a ticked title holding the monument |
| CategoryFunctionality.CreateMissingKeeps | app/utils/categoryFunctionality.js:134-147 | the second edit loop keeps what was collected before in front, and every id it adds is new, handed out during the loop |
| CategoryFunctionality.CreateMissingUnchanged | app/utils/categoryFunctionality.js:134-147 | the categories with a title that is not ticked, or that exactly one category holds, are left as they were |
| CategoryFunctionality.CreateMissingOnce | app/utils/categoryFunctionality.js:137-146 | a ticked title that no category has ends with exactly one category: that title, only the monument, a fresh id, and the id collected |
| CategoryFunctionality.CreateMissingAmbiguous | app/utils/categoryFunctionality.js:137-146 | a title held by two or more categories gets a new category for every occurrence in the ticked titles |
| CategoryFunctionality.EditAdditionalLinks | app/utils/categoryFunctionality.js:113-172 | no category is lost; nothing ticked changes nothing; one title pushes the monument onto the first category with that title, province or not, and with distinct ids onto that category alone, or else creates `{title, [monument]}` under the next id, and collects that one id; every ticked existing non-province category is listed; every id names a ticked category holding the monument |
| CategoryFunctionality.EditAdditionalCreates | app/utils/categoryFunctionality.js:115-147 | for several titles: a title held by exactly one category keeps that category; an unticked absent title stays absent; every ticked title with no category gets exactly one new category with that title and only the monument, under an id not stored before, and that id is collected; a title held by two or more gets one new category per occurrence |
| CategoryFunctionality.EditWithNewTitleCollectsTwo | app/utils/categoryFunctionality.js:113-172 | a worked case: ticking an existing "Castle" and a new "Test" pushes to "Castle" once, creates "Test" and collects both ids |
| CategoryFunctionality.PushToEach | app/utils/categoryFunctionality.js:81-85 | the loop collects the found ids in order and pushes the monument once per id |
| CategoryFunctionality.AddTitle | app/utils/categoryFunctionality.js:88-102 | the loop body leaves the table, counter and ids of `AddTitleStep` |
| CategoryFunctionality.AddEachTitle | app/utils/categoryFunctionality.js:87-103 | the loop leaves the table, counter and ids of `AddTitles` |
| CategoryFunctionality.PushOrCreate | app/utils/categoryFunctionality.js:62-74 | the single-title branch leaves the table, counter and ids of `LookupOrCreate` |
| CategoryFunctionality.AddMonumentAdditionalCategories | app/utils/categoryFunctionality.js:54-108 | the service leaves the table, counter and returned ids of `AddAdditionalSpec` |
| CategoryFunctionality.RetainTicked | app/utils/categoryFunctionality.js:118-132 | the first edit loop leaves the table and ids of `Retain`, and allocates no id |
| CategoryFunctionality.CreateIfUnmatched | app/utils/categoryFunctionality.js:135-146 | the second loop's body leaves the table, counter and ids of `CreateStep` |
| CategoryFunctionality.CreateUnmatched | app/utils/categoryFunctionality.js:134-147 | the second edit loop leaves the table, counter and ids of `CreateMissing` |
| CategoryFunctionality.EditMonumentAdditionalCategories | app/utils/categoryFunctionality.js:113-172 | the service leaves the table, counter and returned ids of `EditAdditionalSpec` |
| ImageFunctionality.AddImagesPlan | app/utils/imageFunctionality.js:52-88 | with more than one file every file is saved; otherwise a blank or unnamed payload upload gets the placeholder, a named single file is uploaded, and anything else, an absent field included, throws |
| ImageFunctionality.EditImagesPlan | app/utils/imageFunctionality.js:121-182 | with more than one file every file is saved; a named file is uploaded; an unnamed one gets the placeholder only with the flag and nothing without it; an absent or blank field or a short array throws |
| ImageFunctionality.PlannedImagesShape | app/utils/imageFunctionality.js:52-104 | the records get consecutive fresh ids and no monument, with the files' names and hosted URLs, or the placeholder's generated name and fixed URL |
| ImageFunctionality.SaveEachFile | app/utils/imageFunctionality.js:53-73 | the per-file loop appends one record per file, in order, and returns their ids and titles |
| ImageFunctionality.AddMonumentImages | app/utils/imageFunctionality.js:43-110 | the result, the ids used and the records saved are those of the plan; with a testing configuration the single record is not saved |
| ImageFunctionality.EditMonumentImages | app/utils/imageFunctionality.js:116-188 | the result, the ids used and the records saved are those of the plan |
| ImageFunctionality.AddMonumentIdToImageRecords | app/utils/imageFunctionality.js:191-193 | the image table becomes `LinkByTitle` of the old one |
| ImageFunctionality.DeleteImageRecords | app/utils/imageFunctionality.js:195-197 | the image table keeps exactly the images not belonging to the monument |
| ImageFunctionality.EditManyFilesLikeAdd | app/utils/imageFunctionality.js:121-140 | several files are handled by edit exactly as by creation, whatever the payload and the flag |
| ImageFunctionality.AddPlaceholderForEmptyPayloadName | test/image-functionality-test.js:18-34 | a named upload under a payload with an empty file name gives one id and a placeholder title |
| ImageFunctionality.EditFlagCreatesPlaceholder | app/utils/imageFunctionality.js:161-181 | an unnamed file with the flag set gives one placeholder id and title |
| ImageFunctionality.EditNothingWithoutFileOrFlag | app/utils/imageFunctionality.js:141-187 | an unnamed file without the flag creates nothing and returns two empty lists |
| ImageFunctionality.LinkThenDelete | app/utils/imageFunctionality.js:191-197 | linking by title and then deleting the monument's images removes the linked images and the monument's earlier ones, and keeps every other image unchanged |
| MonumentsController.CountersStayNonNegative | app/controllers/monuments.js:374-380 | neither the increment on creation nor the guarded decrement on deletion makes a non-negative record counter negative |
| MonumentsController.InsertUnderProvince | app/controllers/monuments.js:165-191 | the new monument takes the next id, is filed under its province, and has the province step's reference appended |
| MonumentsController.PushCategoryIds | app/controllers/monuments.js:200-202 | the loop appends one reference per collected id, in order |
| MonumentsController.AppendOtherCategories | app/controllers/monuments.js:196-206 | the saved monument gains one reference per id the other-category step returns, and the table is that step's |
| MonumentsController.FileMonument | app/controllers/monuments.js:164-209 | the collections and reply after filing are those of `FileSpec` |
| MonumentsController.CreateMonument | app/controllers/monuments.js:161-209 | the image step's records are saved; a throwing image step changes nothing else; otherwise the filing is `FileSpec` on the collections the image step leaves |
| MonumentsController.AddMonument | app/controllers/monuments.js:142-212 | a missing user throws and changes nothing; otherwise the user's counter goes up by one, then the monument is created as in `CreateMonument` |
| MonumentsController.FilingListsMonument | app/controllers/monuments.js:182-206 | no category is lost; every category the new monument refers to lists it; its province category lists it; the province reference is `undefined` exactly when that category existed |
| MonumentsController.FiledUnderProvince | app/controllers/monuments.js:182-188 | the province step: some category with the province title lists the monument, and a returned reference names a category that lists it |
| MonumentsController.FiledUnderOthers | app/controllers/monuments.js:196-206 | the other-category step: every id it returns names a category that lists the monument |
| MonumentsController.FiledMonumentIsListed | app/controllers/monuments.js:164-209 | the new monument comes last under the next id, owned by the user, with the form's title, description, province, county and coordinates and the new images; it is listed by every category it refers to and by its province category; no category loses a member |
| MonumentsController.AppendNewFacts | app/controllers/monuments.js:341-347 | the edit loop leaves the kept entries in front followed by the new ids in the order they are met, each the first time, so every new id is added, nothing else is, and no entry repeats |
| MonumentsController.AppendNewIsFresh | app/controllers/monuments.js:341-347 | appending back to front equals the kept entries followed by the ids not yet present, read front to back |
| MonumentsController.AppendNewConcat | app/controllers/monuments.js:341-347 | the edit loop over two runs of ids is the loop over the first run continued with the second |
| MonumentsController.EditedFields | app/controllers/monuments.js:326-347 | the edited monument keeps its id, province and county, takes the form's title, description and coordinates, loses its owner, takes new images only when there are any, and its references are its first reference followed by the new ids in order, each once |
| MonumentsController.RefileMonument | app/controllers/monuments.js:318-324 | the categories are pulled, pushed by province and reconciled as in `EditAdditionalSpec` |
| MonumentsController.EditedDocument | app/controllers/monuments.js:326-347 | the field writes and the append loop produce the `Edited` document |
| MonumentsController.RefilingListsMonument | app/controllers/monuments.js:318-324 | re-filing loses and renames no category; every returned id names a category listing the monument; an existing province category lists it |
| MonumentsController.RefiledProvinceListed | app/controllers/monuments.js:321 | when a category with the province title exists, one lists the monument after re-filing |
| MonumentsController.RevisedMonumentIsListed | app/controllers/monuments.js:314-352 | the saved document has the form's title, description and coordinates, no owner, its province, county and first reference, the new images if any, and only references to categories listing it; its province category lists it |
| MonumentsController.ReviseMonument | app/controllers/monuments.js:314-352 | the collections and reply are those of `ReviseSpec`: an unknown monument throws and changes nothing |
| MonumentsController.EditMonument | app/controllers/monuments.js:304-355 | the image step's records are saved; when it throws nothing else changes; otherwise the revision is `ReviseSpec` on the collections it leaves |
| MonumentsController.DeleteMonument | app/controllers/monuments.js:359-384 | the monument, its category memberships and its images are removed; a missing user throws after that; otherwise the counter is decremented only while positive, and counters stay non-negative |
| MonumentsController.DeletionLeavesNoReference | app/controllers/monuments.js:365-371 | after deletion the monument is not stored, no category lists it and no image belongs to it, and every other monument and unrelated image is kept |
| MonumentsController.PopulateRefs | app/controllers/monuments.js:229 | `populate("categories")` yields, in reference order and once per reference, the stored category each reference names; undefined and dangling references are dropped |
| MonumentsController.SelectedCategoryTitles | app/controllers/monuments.js:230-238 | the loop collects the populated categories' titles, one per category, in order |
| MonumentsController.EditMonumentView | app/controllers/monuments.js:216-251 | a missing user or monument throws; otherwise the view has the Admin flag of the user and the titles of the monument's stored categories |
| SeedData.CollectImages | app/models/db.js:36-41 | the inner image loop appends, in order, the ids of the images that point at the monument |
| SeedData.CollectCategories | app/models/db.js:44-48 | the inner category loop appends, in order, the ids of the categories that list the monument |
| SeedData.UpdateSeededData | app/models/db.js:30-58 | the monument table becomes `Relinked`: one link update per seeded monument, in order |
| SeedData.ImagesOfMembers | app/models/db.js:36-41 | an image id is collected exactly when that image points at the monument |
| SeedData.CategoriesOfMembers | app/models/db.js:44-48 | a category id is collected exactly when that category lists the monument; the length test adds nothing |
| SeedData.LinkedExtends | app/models/db.js:38-46 | back-linking only appends to the two lists and keeps every other field |
| SeedData.RelinkedPrefix | app/models/db.js:35-54 | after the first k seeded monuments of a table with unique ids, exactly those k are back-linked |
| SeedData.SeededTableBackLinked | app/models/db.js:30-58 | seeding the store's own monument table back-links every monument |
| SeedData.BackLinksComplete | app/models/db.js:30-58 | after back-linking, every image pointing at a monument and every category listing it appear in its lists |
| WeatherFunctionality.ManipulateApiResponse | app/utils/weatherFunctionality.js:25-88 | the loop builds exactly the `Reshape` view, including its TypeError when a `weather` array is empty |
| WeatherFunctionality.ForecastFailsOnPrefix | app/utils/weatherFunctionality.js:49-63 | once a day without conditions is met, the whole forecast throws |
| WeatherFunctionality.ForecastEntries | app/utils/weatherFunctionality.js:49-63 | the forecast succeeds exactly when every day has a condition, and then has one entry per day, in order, from the day's first condition |
| WeatherFunctionality.UnavailableWithoutResponse | app/utils/weatherFunctionality.js:71-78 | without a response `weatherAvailable` is false and the five other fields are undefined |
| WeatherFunctionality.AvailableWithResponse | app/utils/weatherFunctionality.js:35-70 | with a response the reshaping succeeds exactly when every indexed `weather` array is non-empty, and then reports availability, the current condition, sunset time, summary and one forecast entry per day |
| DateFunctionality.Pad2 | app/utils/dateFunctionality.js:21 | `("0" + n).slice(-2)` is two digits, the tens and units of any number below 100 |
| DateFunctionality.FormatLayout | app/utils/dateFunctionality.js:22-33 | the formatted date is the padded day, a dash, the month name, a dash, the year, then " HH:MM:SS" |
| DateFunctionality.TimeLayout | app/utils/dateFunctionality.js:28-33 | the time part is nine characters with its separators in place |
| DateFunctionality.TimeRoundTrip | app/utils/dateFunctionality.js:28-33 | the time part reads back to the hours, minutes and seconds |
| DateFunctionality.DayRoundTrip | app/utils/dateFunctionality.js:23-27 | the day part reads back to the day, month and year |
| DateFunctionality.FormatRoundTrip | app/utils/dateFunctionality.js:5-36 | a formatted date reads back to the date it was made from |
| DateFunctionality.FormatInjective | app/utils/dateFunctionality.js:5-36 | two dates format alike exactly when they are equal |
| DateFunctionality.MonthNumberOfName | app/utils/dateFunctionality.js:7-20 | each month name identifies its 0-based month |
| DateFunctionality.ParseYearText | app/utils/dateFunctionality.js:27 | the year as written, with a minus sign when negative, reads back to the year |
| DateFunctionality.ParsePad2 | app/utils/dateFunctionality.js:21 | a padded number below 100 reads back to itself |
| DateFunctionality.MonthAbbreviationAppears | test/date-functionality-test.js:7-15 | the month abbreviation `Date.prototype.toString` prints appears in the formatted date, right after the day |
| AccountsController.AccountType | app/controllers/accounts.js:60-67 | the account is "Admin" exactly when the form asked for "Admin", and "User" otherwise |
| AccountsController.Notification | app/controllers/accounts.js:104-113 | no notification exactly when the stamp is stored as null; "true" exactly when the last update is within two seconds; otherwise "false" |
| AccountsController.ShowSettings | app/controllers/accounts.js:91-123 | an unknown id throws; otherwise the view shows the stored user with its stamp, its Admin flag and the notification |
| AccountsController.DeleteRedirect | app/controllers/accounts.js:204-215 | a missing logged-in user throws; deleting oneself or being a "User" leads to the deleted page; an "Admin" deleting someone else goes to the dashboard; otherwise nothing is returned |
| AccountsController.Authenticate | app/controllers/accounts.js:240-247 | an unknown email and a wrong password each give their own unauthorized error; success exactly when the first user with the email has that password |
| AccountsController.Signup | app/controllers/accounts.js:47-87 | a taken email is refused and nothing changes; otherwise the new account is appended under the next id, which goes into the cookie, and the reply goes to /home |
| AccountsController.UpdateSettings | app/controllers/accounts.js:147-163 | an unknown id throws; otherwise the five form fields and the update time are saved and the reply goes to /settings |
| AccountsController.DeleteAccount | app/controllers/accounts.js:197-216 | the account is deleted in every case, and the reply is the redirect for the logged-in user as loaded before the deletion |
| AccountsController.Login | app/controllers/accounts.js:237-260 | failed authentication changes nothing and reports its error; success saves the formatted login time and redirects to /report |
| AccountsController.SignupKeepsEmailsUnique | app/controllers/accounts.js:51-55 | a sign-up never lets two accounts share an email |
| AccountsController.SignupThenLogin | app/controllers/accounts.js:70-79 | a new account can log in with the email and password it registered, and is an admin only when asked |
| AccountsController.SignupTakenChangesNothing | app/controllers/accounts.js:51-55 | a taken email leaves the user table as it was |
| AccountsController.UpdateThenShow | app/controllers/accounts.js:147-163 | the settings page after an update shows the form's values and stamp, and the notification exactly within two seconds |
| AccountsController.LoginAgain | app/controllers/accounts.js:252-255 | a login keeps the credentials, so the same email and password log in again |
| AccountsController.DeletionRemovesOnlyThatAccount | app/controllers/accounts.js:202 | after a deletion the account is gone, and every other account stays |

## Left out

- HTTP routing, Joi validation, views, cookies and redirects are left out. A handler's reply is its redirect target or view data.
- Cloudinary, streamifier and file buffering are left out. The upload is a function from bytes to a hosted URL.
- The clock is a parameter: the time in milliseconds for the settings handlers, a `DateTime` for login. The `new Date().toString()` text of the placeholder name is a parameter too.
- The two `toLocaleString("en-IE", ...)` formatters of the weather code are left out. They are function parameters.
- `getWeatherDetails` and its HTTP call through axios are left out. An absent response is modelled as `None`; a `null` response is not modelled.
- The JSON API under app/api and the routes are not part of this model.
- The other handlers of the two controllers are not part of this model: views, reports, filters, the admin dashboard and logout.
- Concurrency is not modelled. The calls run one after the other, as the handlers `await` them. Saves they do not await (lines 45 and 84 of categoryFunctionality.js) are modelled as completed before the next step.
- ObjectIds are natural numbers from a counter, and `==` between an id and a string is value equality.
- `lean` is not modelled: a lean object is the same value as the document. `populate` is modelled by `CategoryFunctionality.PopulateIds`, `CategoryFunctionality.View` and `MonumentsController.PopulateRefs`; they drop references that name no stored document, and `PopulateRefs` also drops undefined ones.
- The schemas' type casts are not modelled, for example a number cast to a Date for `lastUpdated`. A stored time stays a number.
- A failed save, and the signup `catch` of any error other than the taken email, are not modelled.
- The body of `addMonumentImages` with several files always saves. Its testing configuration only changes Cloudinary's settings, which are not modelled.
- AccountsController.UpdateSettings: an absent `userType` in the form unsets the field, as the assignment of `undefined` does.
- WeatherFunctionality.ManipulateApiResponse: the response fields are typed values, so a missing `current` or `daily` field, whose access would throw, is not modelled.
