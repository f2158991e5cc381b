/**
 * The three image filters of src/main.rs. They disagree with each other:
 * the gallery listing of ExpandDirectory folds case and accepts svg, the
 * thumbnail loader folds case, refuses svg and adds bmp/tiff/webp, and the
 * file tree tests a case-sensitive suffix of the entry's name.
 */
module ImageFormats {
  import opened Wrappers
  import opened Paths

  const GALLERY_EXTENSIONS: seq<string> := ["png", "jpg", "jpeg", "gif", "svg"]
  const THUMBNAIL_EXTENSIONS: seq<string> := ["png", "jpg", "jpeg", "gif", "bmp", "tiff", "webp"]
  const TREE_SUFFIXES: seq<string> := [".png", ".jpg", ".jpeg", ".gif", ".svg"]

  /** ExpandDirectory's gallery filter: the lower-cased extension ("" when there is none). */
  predicate IsGalleryImage(p: Path)
    ensures IsGalleryImage(p) ==> Extension(p).Some?
  {
    ToLower(Extension(p).GetOr("")) in GALLERY_EXTENSIONS
  }

  /** LoadThumbnail's supported formats: the lower-cased extension ("" when there is none). */
  predicate IsThumbnailFormat(p: Path)
    ensures IsThumbnailFormat(p) ==> Extension(p).Some?
  {
    ToLower(Extension(p).GetOr("")) in THUMBNAIL_EXTENSIONS
  }

  /** load_directory_children's file filter: the entry name ends with one of the suffixes, case-sensitively. */
  predicate IsTreeImageName(name: string)
    ensures IsTreeImageName(name) ==> |name| >= 4
  {
    exists j :: 0 <= j < |TREE_SUFFIXES| && EndsWith(name, TREE_SUFFIXES[j])
  }

  /** The `image_flag` loop of load_directory_children. */
  method HasImageSuffix(name: string) returns (flag: bool)
    ensures flag <==> IsTreeImageName(name)
  {
    flag := false;
    for i := 0 to |TREE_SUFFIXES|
      invariant flag <==> exists j :: 0 <= j < i && EndsWith(name, TREE_SUFFIXES[j])
    {
      if EndsWith(name, TREE_SUFFIXES[i]) {
        flag := true;
      }
    }
  }

  /** An svg file is listed in the gallery, but its thumbnail is never decoded. */
  lemma SvgListedButNotThumbnailed(dir: Path, stem: string)
    requires stem != "" && '/' !in stem
    ensures IsGalleryImage(Join(dir, stem + ".svg"))
    ensures !IsThumbnailFormat(Join(dir, stem + ".svg"))
  {
    assert stem + ".svg" == stem + "." + "svg";
    ExtensionOfChild(dir, stem, "svg");
    assert ToLower("svg") == "svg" == GALLERY_EXTENSIONS[4];
  }

  /** A bmp file gets a thumbnail when asked for, but the gallery never lists it. */
  lemma BmpThumbnailedButNotListed(dir: Path, stem: string)
    requires stem != "" && '/' !in stem
    ensures !IsGalleryImage(Join(dir, stem + ".bmp"))
    ensures IsThumbnailFormat(Join(dir, stem + ".bmp"))
  {
    assert stem + ".bmp" == stem + "." + "bmp";
    ExtensionOfChild(dir, stem, "bmp");
    assert ToLower("bmp") == "bmp" == THUMBNAIL_EXTENSIONS[4];
  }

  /** An upper-case extension passes the gallery filter but not the file-tree filter. */
  lemma UpperCaseListedButNotInTree(dir: Path, stem: string)
    requires stem != "" && '/' !in stem
    ensures IsGalleryImage(Join(dir, stem + ".PNG"))
    ensures !IsTreeImageName(stem + ".PNG")
  {
    var p := Join(dir, stem + ".PNG");
    assert Extension(p) == Some("PNG") by {
      assert stem + ".PNG" == stem + "." + "PNG";
      ExtensionOfChild(dir, stem, "PNG");
    }
    assert ToLower("PNG") == "png" == GALLERY_EXTENSIONS[0];
    TreeRejectsUpperCase(stem);
  }

  lemma TreeRejectsUpperCase(stem: string)
    ensures !IsTreeImageName(stem + ".PNG")
  {
    var name := stem + ".PNG";
    forall j | 0 <= j < |TREE_SUFFIXES| ensures !EndsWith(name, TREE_SUFFIXES[j]) {
      var s := TREE_SUFFIXES[j];
      if |s| <= |name| {
        assert name[|name| - 1] == 'G';
        assert s[|s| - 1] != 'G';
        assert name[|name| - |s|..][|s| - 1] == name[|name| - 1];
      }
    }
  }

  /** A hidden file named `.png` shows in the file tree, but has no extension for the gallery. */
  lemma DotFileInTreeButNotListed(dir: Path)
    ensures IsTreeImageName(".png")
    ensures !IsGalleryImage(Join(dir, ".png"))
  {
    assert EndsWith(".png", TREE_SUFFIXES[0]);
    DotNameHasNoExtension(dir);
    assert ToLower("") == "";
  }

  lemma DotNameHasNoExtension(dir: Path)
    ensures Extension(Join(dir, ".png")) == None
  {
    FileNameOfChild(dir, ".png");
    var i := LastIndexOf(".png", '.');
    assert i.Some? && i.value == 0 by {
      assert ".png"[0] == '.';
      assert ".png"[1..] == "png";
    }
  }
}
