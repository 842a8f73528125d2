# Content and agent controllers of the Station CMS plugin

This project models two controller mixins of the Station CMS plugin for Rails and proves properties of them.

- `CMS::Controller::Contents` lists, shows and creates the content of a resource class. Content means articles, photos, attachments and the like, each bound into a container by a post.
- `CMS::ActionController::Agents` signs agents up, activates them, sends password-reset codes and resets passwords. It also provides the `get_agent` filter and two filters that check the agent class's options.

The model consists of these modules:

- `CmsTypes` (types.dfy) holds the records the controllers work on: content classes, content records, containers, posts and the format a request asks for.
- `Text` (text.dfy) holds the Ruby string operations the controllers rely on. These are `gsub` with a literal pattern, the unanchored `/\d+/` match, `to_i` and `blank?`.
- `Listing` (listing.dfy) models `index`. It is a pure pipeline with these steps:
  - the supported-collection check;
  - the type filter, either on the type column or on the post's type marker;
  - the container or public scope;
  - newest-first order and pagination;
  - the "last updated" timestamp;
  - the renaming of generic post names in the XML output.
- `Negotiation` (negotiation.dfy) models `show`, that is, which representation each requested format gets.
- `Posting` (posting.dfy) models `create` and `get_content`. A `ContentStore` class holds the content and post tables that the action writes, and its invariant says that no content record is left without a post.
- `Agents` (agents.dfy) models the finders, `get_agent` and the two guards as functions. An `AgentDirectory` class models the agent table, the current-agent slot and the flash, and its methods are the four state-changing actions.

The model takes these external inputs as parameters:

- validations, as the error lists or predicate results they produce;
- the type column of a content table, as a map from content id to type name;
- the pagination library's default page size;
- the clock;
- the reset token the agent model generates.

Requests name one format. A request that accepts any format takes the first format the responder declares. A declared format takes its own block. An undeclared format takes the catch-all block when there is one, and is answered 406 otherwise.

## Model

| member | source | states |
|---|---|---|
| Listing.Index | lib/cms/controller/contents.rb:18-21 | The listing is refused with 400 exactly when the class's collection is not among the container's `:contents` option or, when there is no container or the container does not set the option, the site-wide list |
| Listing.Filter | lib/cms/controller/contents.rb:27-52 | The selected posts are exactly the stored posts that pass the class's type filter and lie in the scope, with no post added |
| Listing.FilterCounts | lib/cms/controller/contents.rb:27-52 | Each selected post appears as many times as it is stored, and every other post not at all |
| Listing.FilterKeepsOrder | lib/cms/controller/contents.rb:27-52 | The selection keeps store order: the selection of a concatenation is the concatenation of the selections |
| Listing.FilterOne | lib/cms/controller/contents.rb:27-52 | A single post is kept exactly when the query selects it |
| Listing.FilterStrategiesAgree | lib/cms/controller/contents.rb:27-31 | When every post's type column agrees with its type marker, the type-column filter and the marker filter select the same posts in the same order |
| Listing.JoinIgnoresMarker | lib/cms/controller/contents.rb:36-38 | The type-column filter matches on the joined content id alone, so it lists a post whose marker names another class when the id hits a row of the right type, and the marker filter does not list that post |
| Listing.PublicListingKeepsContainerPosts | lib/cms/controller/contents.rb:47-52 | Without a container the listing keeps a public post even when that post belongs to a container |
| Listing.SortNewestFirst | lib/cms/controller/contents.rb:39 | The `updated_at DESC` order: the result is newest first and is a permutation of its input |
| Listing.Insert | lib/cms/controller/contents.rb:39 | Inserting into a newest-first sequence keeps it newest first and adds exactly that post |
| Listing.HeadIsNewest | lib/cms/controller/contents.rb:43 | The first post of a newest-first sequence is at least as new as every post in it |
| Listing.PageOf | lib/cms/controller/contents.rb:42 | A page holds at most the page size, only posts of the collection, in collection order, starting at offset `(page - 1) * per_page`, and is empty exactly when that offset is past the end |
| Listing.EveryPostOnItsPage | lib/cms/controller/contents.rb:42 | Paging loses no post: post `k` is entry `k % per_page` of page `k / per_page + 1` |
| Listing.IndexShowsPageOfSelection | lib/cms/controller/contents.rb:36-52 | A supported listing shows exactly one page of the selected posts put newest first, of the class's page size in a container and of the default size otherwise, with the order among equal timestamps left open |
| Listing.PostOnSomePage | lib/cms/controller/contents.rb:42 | Every post of a collection is on some page of it |
| Listing.IndexShowsEverySelectedPost | lib/cms/controller/contents.rb:36-52 | No selected post is lost: each stored post the query selects is shown on some page of the listing |
| Listing.IndexListsOnePageOfSelectedPosts | lib/cms/controller/contents.rb:33-52 | A supported listing shows at most one page, of the class's page size in a container and of the default size otherwise. The page holds only stored posts of the requested type, newest first, from the container or public |
| Listing.ContainerFreshness | lib/cms/controller/contents.rb:43 | In a container, "last updated" is the container's timestamp when no post of the type is there, and otherwise the timestamp of the newest selected post |
| Listing.PublicFreshness | lib/cms/controller/contents.rb:53 | In the public listing, "last updated" is the clock when the page is empty and otherwise the first shown post's timestamp, the newest on the page. On page 1 that post is the newest of all selected posts |
| Listing.FirstPageHeadIsNewest | lib/cms/controller/contents.rb:53 | The first post of page 1 is the newest of the whole newest-first collection |
| Listing.RenameRemovesGenericName | lib/cms/controller/contents.rb:63 | After the two `gsub` passes "cms/post" no longer occurs in the XML, provided that the underscored name cannot recreate it across a boundary |
| Listing.RenameCanRecreateGenericName | lib/cms/controller/contents.rb:63 | A replacement that merely does not contain "cms/post" is not enough: with underscored name "post", the text "cms/cms/post" becomes "cms/post" |
| Text.GsubWithoutMatch | lib/cms/controller/contents.rb:63 | `gsub` leaves a string without an occurrence of the pattern unchanged |
| Text.GsubLeavesNoMatch | lib/cms/controller/contents.rb:63 | After `gsub`, the pattern does not occur in the result when the replacement cannot take part in a new occurrence |
| Negotiation.Show | lib/cms/controller/contents.rb:71-91 | What `show` responds with. A request for any format, or for html, gets html, and a request for xml gets XML. The raw bytes are sent, with the content's filename, its content type and the class's disposition, exactly when the content has a mime type and the format is neither html nor xml. The action sets its own Content-type header, to the mime type, only when the format is not the mime type's own symbol. Without a mime type every other format is not acceptable |
| Posting.BranchFor | lib/cms/controller/contents.rb:126-158 | The create responder takes the html block for html and for any format, the atom block for atom, and no block for anything else |
| Posting.ContentStore.GetContent | lib/cms/controller/contents.rb:163-165 | `get_content` finds the stored record with the id and fails exactly when there is none |
| Posting.ContentStore.SaveContent | lib/cms/controller/contents.rb:120 | `create` of the content record stores it under a fresh id exactly when it validates |
| Posting.ContentStore.SavePost | lib/cms/controller/contents.rb:128 | `save` of the post stores it under a fresh id exactly when it validates |
| Posting.ContentStore.DestroyContent | lib/cms/controller/contents.rb:133 | `destroy` removes exactly that content record |
| Posting.ContentStore.AssignCategories | lib/cms/controller/contents.rb:129 | Assigning category ids changes only that post's categories |
| Posting.ContentStore.CreateAsWritten | lib/cms/controller/contents.rb:110-158 | `create` as written. Invalid content gives the form (html) or the content errors (atom). A content record that saved while its post failed is destroyed, and the response is the form (html) or the post errors (atom). On success the post refers to the new content, its categories are set after it saved (html only), and the response names the new post. Any other format stores the content, answers 406, and breaks the no-orphan invariant |
| Posting.ContentStore.Create | lib/cms/controller/contents.rb:110-158 | `create` with the 406 branch destroying the content like a failed post. Every branch keeps the invariant that each stored content record belongs to a stored post, and each branch's response and new tables are as in the previous row |
| Text.MatchesDigits | lib/cms/action_controller/agents.rb:117 | `match(/\d+/)` succeeds exactly when some character of the parameter is a digit |
| Text.LeadingDigits | lib/cms/action_controller/agents.rb:117 | The digits `to_i` reads: digits only, none exactly when the parameter does not start with a digit, and the longest digit prefix when the parameter has no underscore |
| Text.ToIUnderscores | lib/cms/action_controller/agents.rb:117 | `to_i` skips a single underscore between digits ("1_2" is 12) and stops at a double or trailing one |
| Text.LeadingDigitsOfDigits | lib/cms/action_controller/agents.rb:117 | A string of digits is read by `to_i` in full |
| Agents.FindFirst | lib/cms/action_controller/agents.rb:78 | A `find_by_…` finder returns the first matching record in table order, and returns nothing exactly when no record matches |
| Agents.FindById | lib/cms/action_controller/agents.rb:117 | `find(id)` finds the record with that id and raises RecordNotFound exactly when no record has it |
| Agents.FindByLogin | lib/cms/action_controller/agents.rb:117 | `find_by_login` finds a record with that login, and returns nil exactly when no record has it |
| Agents.GetAgent | lib/cms/action_controller/agents.rb:116-119 | `get_agent` looks up by id (`to_i`) when the parameter holds a digit anywhere, and never falls back to the login. Otherwise it looks up by login |
| Agents.DigitInLoginMissesAgent | lib/cms/action_controller/agents.rb:117 | The existing agent "bob2" is not found by `get_agent("bob2")`: RecordNotFound |
| Agents.GetAgentAnchored | lib/cms/action_controller/agents.rb:117 | The anchored lookup goes by id for a parameter made of digits only and by login otherwise |
| Agents.AnchoredFindsEveryLogin | lib/cms/action_controller/agents.rb:117 | With the anchored test, every agent whose login is not a number is found by that login |
| Agents.AnchoredAgreesOnUnmixedParams | lib/cms/action_controller/agents.rb:117 | The anchored and the unanchored lookups agree on every parameter that has no digit or only digits |
| Agents.ActivationRequired | lib/cms/action_controller/agents.rb:122-124 | The activation actions run exactly when the class has the `activation` option, and redirect back otherwise |
| Agents.LoginAndPassAuthRequired | lib/cms/action_controller/agents.rb:127-129 | The password actions run exactly when the `authentication` modes include `login_and_password`, and redirect back otherwise |
| Agents.SignupRecord | lib/cms/action_controller/agents.rb:34-37 | An anonymous signup copies the session's OpenID identifier onto the new agent, replacing the submitted one. An authenticated agent's signup keeps the submitted identifier. Every other submitted attribute is kept unchanged |
| Agents.SignupInfo | lib/cms/action_controller/agents.rb:41-55 | The signup notice names the created class for an authenticated creator and thanks the visitor otherwise. An activation note is added exactly when the class uses activation: "email sent" when the new agent is active, "check your email" when it is not |
| Agents.Activated | lib/cms/action_controller/agents.rb:70 | The model's `activate` makes the agent active and spends its code, and changes nothing else |
| Agents.ResolveActivation | lib/cms/action_controller/agents.rb:68 | A blank code resolves to the anonymous agent without a lookup. Otherwise the code resolves to the first agent holding it, or to the anonymous agent when nobody holds it |
| Agents.AfterActivation | lib/cms/action_controller/agents.rb:69-72 | The table changes exactly when the resolved agent is stored, its class responds to `active?` and it is inactive. Only that agent changes, and it becomes activated. An active agent is never changed |
| Agents.ActivationIsIdempotent | lib/cms/action_controller/agents.rb:66-74 | When no two agents share a non-blank code, following the same activation link a second time changes nothing |
| Agents.AgentDirectory.Authenticated | lib/cms/action_controller/agents.rb:34 | `authenticated?` holds exactly when the current slot holds a stored agent |
| Agents.AgentDirectory.Signup | lib/cms/action_controller/agents.rb:31-58 | A failed validation renders the form and changes neither the table, the current agent nor the flash. A valid signup appends the agent. An anonymous visitor then becomes that agent and is sent to its page, while an authenticated creator stays current and is sent to the collection. The notice is as in `SignupInfo` |
| Agents.AgentDirectory.Activate | lib/cms/action_controller/agents.rb:66-74 | The current agent becomes the resolved agent, the table becomes `AfterActivation`, "Signup complete" is flashed exactly when an activation happened, and the action always redirects back |
| Agents.AgentDirectory.ForgotPassword | lib/cms/action_controller/agents.rb:76-88 | With no email nothing changes. An unknown email sets the error flash and changes no agent. Otherwise the first agent with that email gets a reset code, the notice is flashed and the action redirects home. The current agent never changes |
| Agents.AgentDirectory.ResetPassword | lib/cms/action_controller/agents.rb:90-108 | An unresolved code (a missing one looks for a NULL reset code) flashes the invalid-code error and redirects home. A blank password changes nothing. A new password is stored, with the code spent, only when the updated agent is valid. The current agent never changes |
| Agents.AgentDirectory.ResetPasswordGuarded | lib/cms/action_controller/agents.rb:92-93 | A blank code counts as invalid: the error is flashed, the action redirects home and no agent changes. No agent without a reset code can have its password changed. With a non-blank code the table, flash and response are exactly those of `ResetPassword` in each of its branches |

## Left out

- Rendering is left out: templates, `render`, `redirect_to` targets, URL helpers, `@title`, `@collection_path`, `instance_variable_set` and the atom `Location` and `Content-type` headers. Responses are datatypes that name the outcome and the record involved.
- The `index` block (`yield` instead of the responder) and the html, js and atom formats of `index` are left out. They only render, and the model proves properties only of the XML rename.
- The SQL is not modelled. The `LEFT JOIN` appears as a map from content id to the type column. A NULL or ambiguous column, and a column the table does not have, are not modelled.
- Equal `updated_at` values have no tie-break in the source. The model keeps store order among them and claims nothing about it.
- Pagination does not model the `page` parameter string. A page is a positive number, and the library's default page size is a parameter of the public listing.
- `Time.now` (contents.rb:53) is a parameter.
- `set_params_from_raw_post` and `set_params_title_and_description` are not part of this model. Neither are the validations of contents and posts, which are inputs (the error lists).
- A request without `params[:post]` makes `nil.merge` (contents.rb:122) raise after line 120 has already created the content record, which leaves another orphan. The model assumes post attributes are present.
- The content store holds the records of one content class. `Create` does not tie `content.kind` to the class, and `GetContent` does not filter on the type column as `find` on a subclass sharing its table does.
- `tableize`, `underscore`, `humanize` and the translation calls are not modelled. The inflected names are fields of the class record.
- In `show`, a mime type whose symbol is `html` or `xml` repeats a declared format. The model lets the earlier declaration win and does not model anything else Rails might do with the repeat.
- The authorization and authentication modules are left out. `authenticated?` is "the current slot holds a stored agent". A nil result from `find_by_activation_code` becomes the anonymous agent.
- Cookies and the session are left out, apart from the OpenID identifier read at signup.
- The agent model's `activate`, `forgot_password` and `reset_password`, email delivery and password hashing are not part of the source. They are specified abstractly: activation sets the agent active and clears its code, `forgot_password` stores a given token, and `reset_password` clears the reset code.
- `Agents.AgentDirectory.ResetPassword`: the bare `rescue` is modelled only for the missing agent. Other exceptions the model methods might raise are not modelled, and neither is `password_confirmation` beyond its being an input to validation.
- `Agents.FindFirst`: a `find_by_…` finder runs `find(:first)`, a `LIMIT 1` with no order, so with several matching records the database may return any of them. The model returns the first in table order, so "the first agent" in the rows for `ForgotPassword` and `ResetPassword` and in the third finding means one matching agent the database picks.
- `Agents.FindById`: database ids are modelled as table position plus one, which assumes no gaps; the ids freed by `destroy` (agents.rb:60-64) are not modelled.
- `Text.ToI`: the model does not handle a sign or leading white space. Underscores between digits are modelled. `find` with a string id is modelled as `find(id.to_i)`, which is how the database adapter quotes a string for an integer key.
- The `new`, `show` (agents) and `destroy` actions are left out because they only delegate.
- Concurrency is left out, including simultaneous use of one code. The source takes no lock.
- `Listing.Index`: its own contract states only when the listing is refused. Which page it shows is stated by `IndexShowsPageOfSelection` and `IndexShowsEverySelectedPost`, and its properties by `IndexListsOnePageOfSelectedPosts`, `ContainerFreshness` and `PublicFreshness`.
- `Listing.RenameRemovesGenericName` is proved under a no-overlap condition on the underscored name. Without that condition the property is false (`RenameCanRecreateGenericName`).
- `Agents.ActivationIsIdempotent` needs a non-blank activation code to be unique. The source does not enforce this, and two agents that share a code are activated one after the other.

## Behaviour worth noting

- A request that accepts any format gets html from `show`, even for content with a mime type, because html is declared first (contents.rb:73).
- The public listing has no condition on the container (contents.rb:47). A public post that belongs to a container therefore also appears in it, although the comment at contents.rb:12 speaks of public contents when no container is requested.
- The listing has no secondary order among posts with equal timestamps.
- After a reset the current agent does not change, because `current_agent = @agent` (agents.rb:100) assigns a local variable.
- Only the password field decides whether a reset form counts as blank, not the confirmation (agents.rb:94).
- An unknown activation code replaces the current agent with the anonymous one (agents.rb:68).

## Findings

| source | as written | input that shows it | evidently intended | confidence | as-written member | corrected member |
|---|---|---|---|---|---|---|
| lib/cms/controller/contents.rb:120-158 | The content record is created before the responder runs. Only the html and atom blocks destroy it when no post is stored, and any other format is answered 406. | A POST of valid content in format xml | No content record survives without a post | medium, not executed | Posting.ContentStore.CreateAsWritten (with Posting.OrphanScenario) | Posting.ContentStore.Create |
| lib/cms/action_controller/agents.rb:117 | The `/\d+/` match is unanchored, so a login with a digit is taken for an id | `GET /users/bob2` with an agent whose login is "bob2" gives RecordNotFound | Only an all-digit parameter is an id | high, not executed | Agents.DigitInLoginMissesAgent | Agents.GetAgentAnchored (with Agents.AnchoredFindsEveryLogin) |
| lib/cms/action_controller/agents.rb:92-93 | A missing reset code is passed to `find_by_reset_password_code`, which looks for a NULL code | A reset request with a password and no code resets the first agent who never asked for a reset | A blank code is an invalid code | medium, not executed | Agents.AgentDirectory.ResetPassword (with Agents.ResetWithoutCodeScenario) | Agents.AgentDirectory.ResetPasswordGuarded |
